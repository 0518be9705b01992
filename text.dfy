/** The string primitives the evaluator relies on.
 *
 *  Python's `str.strip()`, `str.splitlines()`, the `in` substring test and
 *  `str.join` work from fixed character lists and are defined concretely here.
 *  The operations that look characters up in the Unicode database (general
 *  category, NFKC, `str.lower()`, the `\w` class, and the text `str()` gives a
 *  set) are the fields of a `Tables` value; `Tables.Valid()` lists the facts
 *  about them that the lemmas of this project rely on, each of which the real
 *  Unicode database satisfies.
 */
module Text {

  /** Python's `str.isspace()`: bidirectional class WS, B or S, or category Zs. */
  predicate IsSpace(c: char) {
    || c == ' '
    || ('\t' <= c <= '\r')
    || ('\U{1C}' <= c <= '\U{1F}')
    || c == '\U{85}' || c == '\U{A0}' || c == '\U{1680}'
    || ('\U{2000}' <= c <= '\U{200A}')
    || c == '\U{2028}' || c == '\U{2029}'
    || c == '\U{202F}' || c == '\U{205F}' || c == '\U{3000}'
  }

  /** The line boundaries of `str.splitlines()` ("\r\n" counts as one boundary). */
  predicate IsLineBreak(c: char) {
    || c == '\n' || c == '\r' || c == '\U{B}' || c == '\U{C}'
    || ('\U{1C}' <= c <= '\U{1E}')
    || c == '\U{85}' || c == '\U{2028}' || c == '\U{2029}'
  }

  /** Unicode general category Cc. */
  predicate IsControl(c: char) {
    c <= '\U{1F}' || ('\U{7F}' <= c <= '\U{9F}')
  }

  predicate IsAscii(c: char) {
    c <= '\U{7F}'
  }

  /** Characters matched by `\w` among the ASCII ones. */
  predicate IsAsciiWordChar(c: char) {
    ('a' <= c <= 'z') || ('A' <= c <= 'Z') || ('0' <= c <= '9') || c == '_'
  }

  ghost predicate AllSpace(s: string) {
    forall k :: 0 <= k < |s| ==> IsSpace(s[k])
  }

  ghost predicate BreakFree(s: string) {
    forall k :: 0 <= k < |s| ==> !IsLineBreak(s[k])
  }

  ghost predicate ControlFree(s: string) {
    forall k :: 0 <= k < |s| ==> !IsControl(s[k])
  }

  ghost predicate IsAsciiText(s: string) {
    forall k :: 0 <= k < |s| ==> IsAscii(s[k])
  }

  /** Text over ASCII and the two Unicode separators U+2028 and U+2029. */
  ghost predicate AsciiOrSeparators(s: string) {
    forall k :: 0 <= k < |s| ==> IsAscii(s[k]) || s[k] == '\U{2028}' || s[k] == '\U{2029}'
  }

  /** A string that `str.strip()` leaves as it is. */
  ghost predicate Trimmed(s: string) {
    s == [] || (!IsSpace(s[0]) && !IsSpace(s[|s| - 1]))
  }

  function AsciiLowerChar(c: char): char {
    if 'A' <= c <= 'Z' then (c as int + 32) as char else c
  }

  /** `str.lower()` on text whose letters are all ASCII. */
  function AsciiLower(s: string): (r: string)
    ensures |r| == |s|
    ensures forall k :: 0 <= k < |s| ==> r[k] == AsciiLowerChar(s[k])
  {
    if s == [] then [] else [AsciiLowerChar(s[0])] + AsciiLower(s[1..])
  }

  /** `l` is `s` with A-Z mapped to a-z. */
  ghost predicate LowersAscii(s: string, l: string) {
    |l| == |s| && forall k :: 0 <= k < |s| ==> l[k] == AsciiLowerChar(s[k])
  }

  /** The Unicode-database lookups, as functions. */
  datatype Tables = Tables(
    /** `unicodedata.category(c)[0] == 'C'` */
    isOther: char -> bool,
    /** `unicodedata.normalize('NFKC', s)` */
    nfkc: string -> string,
    /** `s.lower()` (full case mapping, with the final-sigma rule) */
    lower: string -> string,
    /** `c` matches `\w` in a `str` pattern */
    isWord: char -> bool,
    /** `str(x)` of a set of strings; the element order follows the interpreter's string hashing */
    showSet: set<string> -> string)
  {
    /** Facts of the Unicode database that the lemmas of this project use. */
    ghost predicate Valid() {
      // Cc is one of the C categories; the rest of ASCII is not, nor are U+2028 (Zl) and U+2029 (Zp).
      && (forall c: char :: IsControl(c) ==> isOther(c))
      && (forall c: char :: IsAscii(c) && !IsControl(c) ==> !isOther(c))
      && !isOther('\U{2028}') && !isOther('\U{2029}')
      // No compatibility decomposition yields a control character.
      && (forall s :: ControlFree(s) ==> ControlFree(nfkc(s)))
      // ASCII and the two separators are NFKC-stable, and nothing composes with them.
      && (forall s :: AsciiOrSeparators(s) ==> nfkc(s) == s)
      // Lower-casing ASCII text maps A-Z to a-z and nothing else.
      && (forall s :: IsAsciiText(s) ==> LowersAscii(s, lower(s)))
      // A space is neither cased nor case-ignorable, so the final-sigma context never crosses it.
      && (forall a: string, b: string :: lower(a + " " + b) == lower(a) + " " + lower(b))
      // `\w` on ASCII is [A-Za-z0-9_]; no white space is a word character.
      && (forall c: char :: IsAscii(c) ==> (isWord(c) <==> IsAsciiWordChar(c)))
      && (forall c: char :: IsSpace(c) ==> !isWord(c))
    }
  }

  lemma LowerAscii(t: Tables, s: string)
    requires t.Valid() && IsAsciiText(s)
    ensures t.lower(s) == AsciiLower(s)
  {
  }

  // ---------------------------------------------------------------------------
  // str.strip()

  function TrimStart(s: string): (r: string)
    ensures |r| <= |s| && r == s[|s| - |r|..]
    ensures forall k :: 0 <= k < |s| - |r| ==> IsSpace(s[k])
    ensures r == [] || !IsSpace(r[0])
  {
    if s != [] && IsSpace(s[0]) then TrimStart(s[1..]) else s
  }

  function TrimEnd(s: string): (r: string)
    ensures |r| <= |s| && r == s[..|r|]
    ensures forall k :: |r| <= k < |s| ==> IsSpace(s[k])
    ensures r == [] || !IsSpace(r[|r| - 1])
  {
    if s != [] && IsSpace(s[|s| - 1]) then TrimEnd(s[..|s| - 1]) else s
  }

  /** `s.strip()`: the text between the leading and the trailing white space. */
  function Strip(s: string): (r: string)
    ensures Trimmed(r)
    ensures |r| <= |s|
    ensures r == [] <==> AllSpace(s)
  {
    StripShape(s);
    TrimEnd(TrimStart(s))
  }

  lemma StripShape(s: string)
    ensures var r := TrimEnd(TrimStart(s)); Trimmed(r) && (r == [] <==> AllSpace(s))
  {
    var m := TrimStart(s);
    var r := TrimEnd(m);
    var d := |s| - |m|;
    if r != [] {
      assert r[0] == m[0];
      assert !IsSpace(s[d]);
    } else {
      assert m == [];
    }
  }

  lemma {:induction false} TrimStartOfPadded(p: string, r: string)
    requires AllSpace(p)
    requires r == [] || !IsSpace(r[0])
    ensures TrimStart(p + r) == r
    decreases |p|
  {
    if p != [] {
      assert (p + r)[1..] == p[1..] + r;
      TrimStartOfPadded(p[1..], r);
    } else {
      assert p + r == r;
    }
  }

  lemma {:induction false} TrimEndOfPadded(r: string, q: string)
    requires AllSpace(q)
    requires r == [] || !IsSpace(r[|r| - 1])
    ensures TrimEnd(r + q) == r
    decreases |q|
  {
    if q != [] {
      assert (r + q)[..|r + q| - 1] == r + q[..|q| - 1];
      TrimEndOfPadded(r, q[..|q| - 1]);
    } else {
      assert r + q == r;
    }
  }

  /** `strip()` removes exactly the surrounding white space: stripping a trimmed
   *  text padded with white space on both sides gives that text back. */
  lemma StripOfPadded(p: string, r: string, q: string)
    requires AllSpace(p) && AllSpace(q) && Trimmed(r)
    ensures Strip(p + r + q) == r
  {
    if r == [] {
      assert p + r + q == (p + q) + [];
      TrimStartOfPadded(p + q, []);
      assert TrimStart(p + r + q) == [];
    } else {
      assert p + r + q == p + (r + q);
      TrimStartOfPadded(p, r + q);
      TrimEndOfPadded(r, q);
    }
  }

  lemma TrimStartSplits(s: string)
    ensures AllSpace(s[..|s| - |TrimStart(s)|]) && s == s[..|s| - |TrimStart(s)|] + TrimStart(s)
  {
    var d := |s| - |TrimStart(s)|;
    assert forall k :: 0 <= k < d ==> s[..d][k] == s[k];
  }

  lemma TrimEndSplits(m: string)
    ensures AllSpace(m[|TrimEnd(m)|..]) && m == TrimEnd(m) + m[|TrimEnd(m)|..]
  {
    var e := |TrimEnd(m)|;
    assert forall k :: 0 <= k < |m| - e ==> m[e..][k] == m[e + k];
  }

  lemma TrimBothSplits(s: string) returns (p: string, q: string)
    ensures AllSpace(p) && AllSpace(q)
    ensures s == p + TrimEnd(TrimStart(s)) + q
  {
    var m := TrimStart(s);
    var r := TrimEnd(m);
    TrimStartSplits(s);
    TrimEndSplits(m);
    p, q := s[..|s| - |m|], m[|r|..];
    Regroup3(p, r, q);
  }

  lemma Regroup3<T>(p: seq<T>, r: seq<T>, q: seq<T>)
    ensures p + (r + q) == p + r + q
  {
  }

  /** Every text is its stripped form with white space on either side. */
  lemma StripSplits(s: string) returns (p: string, q: string)
    ensures AllSpace(p) && AllSpace(q)
    ensures s == p + Strip(s) + q
  {
    p, q := TrimBothSplits(s);
  }

  lemma Regroup(p: string, a: string, m: string, b: string, q: string)
    ensures p + (a + m + b) + q == (p + a) + m + (b + q)
  {
  }

  /** Surrounding white space never changes what `strip()` returns. */
  lemma StripIgnoresPadding(p: string, s: string, q: string)
    requires AllSpace(p) && AllSpace(q)
    ensures Strip(p + s + q) == Strip(s)
  {
    var a, b := StripSplits(s);
    var m := Strip(s);
    Regroup(p, a, m, b, q);
    assert AllSpace(p + a) && AllSpace(b + q);
    StripOfPadded(p + a, m, b + q);
  }

  /** ASCII lower-casing maps no character into or out of the white space. */
  lemma LowerKeepsSpace(c: char)
    ensures IsSpace(AsciiLowerChar(c)) == IsSpace(c)
  {
  }

  lemma {:induction false} TrimStartLower(s: string)
    ensures TrimStart(AsciiLower(s)) == AsciiLower(TrimStart(s))
    decreases |s|
  {
    if s != [] {
      LowerKeepsSpace(s[0]);
      assert AsciiLower(s)[1..] == AsciiLower(s[1..]);
      TrimStartLower(s[1..]);
    }
  }

  lemma {:induction false} TrimEndLower(s: string)
    ensures TrimEnd(AsciiLower(s)) == AsciiLower(TrimEnd(s))
    decreases |s|
  {
    if s != [] {
      var n := |s| - 1;
      LowerKeepsSpace(s[n]);
      assert AsciiLower(s)[..n] == AsciiLower(s[..n]);
      TrimEndLower(s[..n]);
    }
  }

  /** Stripping and ASCII lower-casing can be done in either order. */
  lemma StripLower(s: string)
    ensures Strip(AsciiLower(s)) == AsciiLower(Strip(s))
  {
    TrimStartLower(s);
    TrimEndLower(TrimStart(s));
  }

  lemma StripIdempotent(s: string)
    ensures Strip(Strip(s)) == Strip(s)
  {
    var r := Strip(s);
    assert TrimStart(r) == r;
    assert TrimEnd(r) == r;
  }

  // ---------------------------------------------------------------------------
  // str.splitlines()

  /** Length of the first line of `s`: the index of its first line boundary, or |s|. */
  function LineLength(s: string): (n: nat)
    ensures n <= |s|
    ensures forall k :: 0 <= k < n ==> !IsLineBreak(s[k])
    ensures n < |s| ==> IsLineBreak(s[n])
  {
    if s == [] || IsLineBreak(s[0]) then 0 else 1 + LineLength(s[1..])
  }

  /** `s.splitlines()`: the lines of `s` without their boundaries; a final
   *  boundary does not start another line, and "\r\n" is a single boundary. */
  function SplitLines(s: string): (lines: seq<string>)
    ensures forall k :: 0 <= k < |lines| ==> BreakFree(lines[k])
    ensures BreakFree(s) ==> lines == (if s == [] then [] else [s])
    decreases |s|
  {
    if s == [] then []
    else
      var n := LineLength(s);
      assert BreakFree(s) ==> n == |s| && s[..n] == s;
      var next := if n == |s| then n
                  else if s[n] == '\r' && n + 1 < |s| && s[n + 1] == '\n' then n + 2
                  else n + 1;
      [s[..n]] + SplitLines(s[next..])
  }

  /** A line boundary after a text without one ends the first line there; the
   *  rest of the lines start after the boundary, which is two characters long
   *  when it is "\r\n". */
  lemma SplitLinesAtBoundary(a: string, c: char, b: string)
    requires BreakFree(a) && IsLineBreak(c)
    ensures SplitLines(a + [c] + b)
            == [a] + SplitLines(if c == '\r' && b != [] && b[0] == '\n' then b[1..] else b)
  {
    var s := a + [c] + b;
    FirstLineLength(a, c, b);
    assert s[..|a|] == a;
    assert s[|a|] == c;
    if c == '\r' && b != [] && b[0] == '\n' {
      assert s[|a| + 1] == b[0];
      assert s[|a| + 2..] == b[1..];
    } else {
      assert b != [] ==> s[|a| + 1] == b[0];
      assert s[|a| + 1..] == b;
    }
  }

  lemma FirstLineLength(a: string, c: char, b: string)
    requires BreakFree(a) && IsLineBreak(c)
    ensures LineLength(a + [c] + b) == |a|
  {
    var s := a + [c] + b;
    assert forall k :: 0 <= k < |a| ==> s[k] == a[k];
    assert s[|a|] == c;
  }

  // ---------------------------------------------------------------------------
  // `p in s` and `sep.join(parts)`

  /** `p` occurs in `s` starting at index `i`. */
  ghost predicate OccursAt(s: string, p: string, i: int) {
    0 <= i <= |s| - |p| && s[i..i + |p|] == p
  }

  lemma ShiftedOccurrence(s: string, p: string)
    requires |s| >= |p| && s[..|p|] != p
    ensures (exists i :: OccursAt(s, p, i)) <==> (exists i :: OccursAt(s[1..], p, i))
  {
    if i :| OccursAt(s, p, i) {
      assert i != 0;
      assert s[1..][i - 1..i - 1 + |p|] == s[i..i + |p|];
      assert OccursAt(s[1..], p, i - 1);
    }
    if i :| OccursAt(s[1..], p, i) {
      assert s[i + 1..i + 1 + |p|] == s[1..][i..i + |p|];
      assert OccursAt(s, p, i + 1);
    }
  }

  /** Python's `p in s` for strings. */
  function Contains(s: string, p: string): (b: bool)
    ensures b <==> exists i :: OccursAt(s, p, i)
    decreases |s|
  {
    if |s| < |p| then false
    else if s[..|p|] == p then assert OccursAt(s, p, 0); true
    else ShiftedOccurrence(s, p); Contains(s[1..], p)
  }

  /** The total length of `parts`. */
  function TotalLength(parts: seq<string>): nat {
    if parts == [] then 0 else |parts[0]| + TotalLength(parts[1..])
  }

  /** `sep.join(parts)`: the parts in order with `sep` between neighbours. */
  function Join(sep: string, parts: seq<string>): (r: string)
    ensures parts == [] ==> r == []
    ensures |parts| == 1 ==> r == parts[0]
    ensures parts != [] ==> |r| == TotalLength(parts) + (|parts| - 1) * |sep|
    ensures parts != [] ==> r[..|parts[0]|] == parts[0]
  {
    if parts == [] then ""
    else if |parts| == 1 then parts[0]
    else parts[0] + sep + Join(sep, parts[1..])
  }

  // ---------------------------------------------------------------------------
  // re.findall(r'\b\w+\b', s)

  /** Length of the run of word characters at the start of `s`. */
  function WordRunLength(t: Tables, s: string): (n: nat)
    ensures n <= |s|
    ensures forall k :: 0 <= k < n ==> t.isWord(s[k])
    ensures n < |s| ==> !t.isWord(s[n])
  {
    if s == [] || !t.isWord(s[0]) then 0 else 1 + WordRunLength(t, s[1..])
  }

  /** `re.findall(r'\b\w+\b', s)`: scanning left to right, every match starts
   *  where a word character follows a non-word character or the start, and the
   *  greedy `\w+` runs to the next non-word character, where `\b` holds. */
  function Tokens(t: Tables, s: string): (ws: seq<string>)
    ensures forall k :: 0 <= k < |ws| ==> |ws[k]| > 0
    decreases |s|
  {
    if s == [] then []
    else if !t.isWord(s[0]) then Tokens(t, s[1..])
    else
      var n := WordRunLength(t, s);
      [s[..n]] + Tokens(t, s[n..])
  }

  /** `s[i..j]` is a run of word characters with a word boundary on each side:
   *  what `\b\w+\b` matches. */
  ghost predicate IsMaximalRun(t: Tables, s: string, i: int, j: int) {
    && 0 <= i < j <= |s|
    && (forall k :: i <= k < j ==> t.isWord(s[k]))
    && (i == 0 || !t.isWord(s[i - 1]))
    && (j == |s| || !t.isWord(s[j]))
  }

  lemma TokensSkip(t: Tables, s: string)
    requires s != [] && !t.isWord(s[0])
    ensures Tokens(t, s) == Tokens(t, s[1..])
  {
  }

  lemma TokensTake(t: Tables, s: string)
    requires s != [] && t.isWord(s[0])
    ensures var n := WordRunLength(t, s); 0 < n && Tokens(t, s) == [s[..n]] + Tokens(t, s[n..])
  {
  }

  /** A maximal run of `s` shifted by `d` is one of `s` preceded by `d` non-word characters. */
  lemma ShiftRun(t: Tables, s: string, d: nat, i: int, j: int)
    requires d <= |s|
    requires IsMaximalRun(t, s[d..], i, j)
    requires i == 0 ==> d == 0 || !t.isWord(s[d - 1])
    ensures IsMaximalRun(t, s, i + d, j + d) && s[d..][i..j] == s[i + d..j + d]
  {
    assert forall k :: 0 <= k < |s| - d ==> s[d..][k] == s[k + d];
  }

  lemma {:induction false} TokenIsMaximalRun(t: Tables, s: string, k: nat) returns (i: int, j: int)
    requires k < |Tokens(t, s)|
    ensures IsMaximalRun(t, s, i, j) && Tokens(t, s)[k] == s[i..j]
    decreases |s|, 1
  {
    assert s != [];
    if !t.isWord(s[0]) {
      i, j := TokenAfterSeparatorIsRun(t, s, k);
    } else {
      i, j := TokenAfterWordIsRun(t, s, k);
    }
  }

  /** TokenIsMaximalRun when `s` starts with a non-word character. */
  lemma {:induction false} TokenAfterSeparatorIsRun(t: Tables, s: string, k: nat) returns (i: int, j: int)
    requires s != [] && !t.isWord(s[0]) && k < |Tokens(t, s)|
    ensures IsMaximalRun(t, s, i, j) && Tokens(t, s)[k] == s[i..j]
    decreases |s|, 0
  {
    TokensSkip(t, s);
    i, j := TokenIsMaximalRun(t, s[1..], k);
    ShiftRun(t, s, 1, i, j);
    i, j := i + 1, j + 1;
  }

  /** TokenIsMaximalRun when `s` starts with a word character. */
  lemma {:induction false} TokenAfterWordIsRun(t: Tables, s: string, k: nat) returns (i: int, j: int)
    requires s != [] && t.isWord(s[0]) && k < |Tokens(t, s)|
    ensures IsMaximalRun(t, s, i, j) && Tokens(t, s)[k] == s[i..j]
    decreases |s|, 0
  {
    TokensTake(t, s);
    var n := WordRunLength(t, s);
    if k == 0 {
      i, j := 0, n;
    } else {
      i, j := TokenIsMaximalRun(t, s[n..], k - 1);
      i, j := LaterTokenRun(t, s, n, k, i, j);
    }
  }

  /** Step of TokenIsMaximalRun past the first token, which ends at `n`. */
  lemma LaterTokenRun(t: Tables, s: string, n: nat, k: nat, i0: int, j0: int) returns (i: int, j: int)
    requires 0 < n <= |s| && n == WordRunLength(t, s)
    requires 0 < k && Tokens(t, s) == [s[..n]] + Tokens(t, s[n..])
    requires k - 1 < |Tokens(t, s[n..])|
    requires IsMaximalRun(t, s[n..], i0, j0) && Tokens(t, s[n..])[k - 1] == s[n..][i0..j0]
    ensures IsMaximalRun(t, s, i, j) && Tokens(t, s)[k] == s[i..j]
  {
    assert s[n..][i0] == s[n + i0];
    assert i0 != 0 by {
      assert t.isWord(s[n..][i0]);
    }
    ShiftRun(t, s, n, i0, j0);
    i, j := i0 + n, j0 + n;
    assert Tokens(t, s)[k] == Tokens(t, s[n..])[k - 1];
  }

  /** A maximal run of `s` that starts at `i >= d` is one of `s[d..]`. */
  lemma UnshiftRun(t: Tables, s: string, d: nat, i: int, j: int)
    requires d <= i
    requires IsMaximalRun(t, s, i, j)
    ensures IsMaximalRun(t, s[d..], i - d, j - d) && s[d..][i - d..j - d] == s[i..j]
  {
    assert forall k :: 0 <= k < |s| - d ==> s[d..][k] == s[k + d];
  }

  lemma {:induction false} WordRunAtLeast(t: Tables, s: string, j: nat)
    requires j <= |s| && forall k :: 0 <= k < j ==> t.isWord(s[k])
    ensures WordRunLength(t, s) >= j
  {
    if j > 0 {
      WordRunAtLeast(t, s[1..], j - 1);
    }
  }

  lemma {:induction false} WordRunAtMost(t: Tables, s: string, j: nat)
    requires j < |s| && !t.isWord(s[j])
    ensures WordRunLength(t, s) <= j
  {
    if j > 0 && t.isWord(s[0]) {
      WordRunAtMost(t, s[1..], j - 1);
    }
  }

  /** Where a maximal run sits relative to the first run of word characters. */
  lemma RunAgainstFirstRun(t: Tables, s: string, i: int, j: int)
    requires IsMaximalRun(t, s, i, j)
    ensures var n := WordRunLength(t, s); (i == 0 ==> j == n) && (i > 0 ==> i > n)
  {
    if i == 0 {
      WordRunAtLeast(t, s, j);
      if j < |s| {
        WordRunAtMost(t, s, j);
      }
    } else {
      WordRunAtMost(t, s, i - 1);
    }
  }

  lemma {:induction false} MaximalRunIsToken(t: Tables, s: string, i: int, j: int) returns (k: nat)
    requires IsMaximalRun(t, s, i, j)
    ensures k < |Tokens(t, s)| && Tokens(t, s)[k] == s[i..j]
    decreases |s|, 1
  {
    if !t.isWord(s[0]) {
      k := RunAfterSeparatorIsToken(t, s, i, j);
    } else {
      k := RunAfterWordIsToken(t, s, i, j);
    }
  }

  /** MaximalRunIsToken when `s` starts with a non-word character. */
  lemma {:induction false} RunAfterSeparatorIsToken(t: Tables, s: string, i: int, j: int) returns (k: nat)
    requires IsMaximalRun(t, s, i, j) && !t.isWord(s[0])
    ensures k < |Tokens(t, s)| && Tokens(t, s)[k] == s[i..j]
    decreases |s|, 0
  {
    TokensSkip(t, s);
    UnshiftRun(t, s, 1, i, j);
    k := MaximalRunIsToken(t, s[1..], i - 1, j - 1);
  }

  /** MaximalRunIsToken when `s` starts with a word character. */
  lemma {:induction false} RunAfterWordIsToken(t: Tables, s: string, i: int, j: int) returns (k: nat)
    requires IsMaximalRun(t, s, i, j) && t.isWord(s[0])
    ensures k < |Tokens(t, s)| && Tokens(t, s)[k] == s[i..j]
    decreases |s|, 0
  {
    TokensTake(t, s);
    RunAgainstFirstRun(t, s, i, j);
    var n := WordRunLength(t, s);
    if i == 0 {
      k := 0;
    } else {
      UnshiftRun(t, s, n, i, j);
      var k0 := MaximalRunIsToken(t, s[n..], i - n, j - n);
      LaterTokenIs(t, s, n, k0, i, j);
      k := k0 + 1;
    }
  }

  /** Step of MaximalRunIsToken past the first token, which ends at `n`. */
  lemma LaterTokenIs(t: Tables, s: string, n: nat, k0: nat, i: int, j: int)
    requires n <= i <= j <= |s| && Tokens(t, s) == [s[..n]] + Tokens(t, s[n..])
    requires k0 < |Tokens(t, s[n..])| && Tokens(t, s[n..])[k0] == s[n..][i - n..j - n]
    ensures k0 + 1 < |Tokens(t, s)| && Tokens(t, s)[k0 + 1] == s[i..j]
  {
    assert s[n..][i - n..j - n] == s[i..j];
  }

  /** The tokens are exactly the texts `\b\w+\b` matches somewhere in `s`. */
  lemma TokensAreMaximalRuns(t: Tables, s: string, w: string)
    ensures w in Tokens(t, s) <==> exists i, j :: IsMaximalRun(t, s, i, j) && w == s[i..j]
  {
    if w in Tokens(t, s) {
      var k :| 0 <= k < |Tokens(t, s)| && Tokens(t, s)[k] == w;
      var i, j := TokenIsMaximalRun(t, s, k);
    }
    if i, j :| IsMaximalRun(t, s, i, j) && w == s[i..j] {
      var k := MaximalRunIsToken(t, s, i, j);
    }
  }

  lemma {:induction false} WordRunStopsAtSeparator(t: Tables, a: string, c: char, b: string)
    requires !t.isWord(c)
    ensures WordRunLength(t, a + [c] + b) == WordRunLength(t, a)
    decreases |a|
  {
    if a == [] {
      assert (a + [c] + b)[0] == c;
    } else if t.isWord(a[0]) {
      assert (a + [c] + b)[1..] == a[1..] + [c] + b;
      WordRunStopsAtSeparator(t, a[1..], c, b);
    }
  }

  /** A non-word character separates tokens: the tokens of `a + [c] + b` are
   *  those of `a` followed by those of `b`. */
  lemma {:induction false} TokensAcrossSeparator(t: Tables, a: string, c: char, b: string)
    requires !t.isWord(c)
    ensures Tokens(t, a + [c] + b) == Tokens(t, a) + Tokens(t, b)
    decreases |a|, 1
  {
    var s := a + [c] + b;
    if a == [] {
      assert s[0] == c && s[1..] == b;
      TokensSkip(t, s);
    } else if !t.isWord(a[0]) {
      SeparatorFirstAcross(t, a, c, b);
    } else {
      WordFirstAcross(t, a, c, b);
    }
  }

  /** TokensAcrossSeparator when `a` starts with a non-word character. */
  lemma {:induction false} SeparatorFirstAcross(t: Tables, a: string, c: char, b: string)
    requires !t.isWord(c) && a != [] && !t.isWord(a[0])
    ensures Tokens(t, a + [c] + b) == Tokens(t, a) + Tokens(t, b)
    decreases |a|, 0
  {
    var s := a + [c] + b;
    assert s[0] == a[0] && s[1..] == a[1..] + [c] + b;
    TokensSkip(t, s);
    TokensSkip(t, a);
    TokensAcrossSeparator(t, a[1..], c, b);
  }

  /** TokensAcrossSeparator when `a` starts with a word character. */
  lemma {:induction false} WordFirstAcross(t: Tables, a: string, c: char, b: string)
    requires !t.isWord(c) && a != [] && t.isWord(a[0])
    ensures Tokens(t, a + [c] + b) == Tokens(t, a) + Tokens(t, b)
    decreases |a|, 0
  {
    var s := a + [c] + b;
    var n := WordRunLength(t, a);
    WordRunStopsAtSeparator(t, a, c, b);
    SplitPrefix(a, [c] + b, n);
    Regroup3(a, [c], b);
    Regroup3(a[n..], [c], b);
    TokensTake(t, s);
    TokensTake(t, a);
    TokensAcrossSeparator(t, a[n..], c, b);
    Regroup3([a[..n]], Tokens(t, a[n..]), Tokens(t, b));
  }

  lemma SplitPrefix<T>(a: seq<T>, rest: seq<T>, n: nat)
    requires n <= |a|
    ensures (a + rest)[..n] == a[..n] && (a + rest)[n..] == a[n..] + rest
  {
  }

  /** A non-empty run of word characters is one token. */
  lemma {:induction false} SingleToken(t: Tables, w: string)
    requires w != []
    requires forall k :: 0 <= k < |w| ==> t.isWord(w[k])
    ensures Tokens(t, w) == [w]
  {
    TokensTake(t, w);
    var n := WordRunLength(t, w);
    assert n == |w|;
    assert w[..n] == w && w[n..] == [];
  }

  // ---------------------------------------------------------------------------
  // A witness for Tables.Valid()

  lemma {:induction false} AsciiLowerConcat(a: string, b: string)
    ensures AsciiLower(a + b) == AsciiLower(a) + AsciiLower(b)
    decreases |a|
  {
    if a == [] {
      assert a + b == b;
    } else {
      assert (a + b)[1..] == a[1..] + b;
      AsciiLowerConcat(a[1..], b);
    }
  }

  /** The Unicode database restricted to ASCII behaviour: only Cc characters are
   *  in a C category, NFKC changes nothing, only A-Z have a lower case, and
   *  `\w` is [A-Za-z0-9_]. */
  function AsciiTables(): Tables {
    Tables(c => IsControl(c), s => s, s => AsciiLower(s), c => IsAsciiWordChar(c), _ => "set()")
  }

  /** `Valid()` can be met: the ASCII tables satisfy every fact it asks for. */
  lemma AsciiTablesValid()
    ensures AsciiTables().Valid()
  {
    var t := AsciiTables();
    forall a: string, b: string
      ensures t.lower(a + " " + b) == t.lower(a) + " " + t.lower(b)
    {
      AsciiLowerConcat(a + " ", b);
      AsciiLowerConcat(a, " ");
      assert AsciiLower(" ") == " ";
    }
    assert forall s :: IsAsciiText(s) ==> LowersAscii(s, t.lower(s));
    assert forall s :: AsciiOrSeparators(s) ==> t.nfkc(s) == s;
    assert forall c: char :: IsSpace(c) ==> !t.isWord(c);
    assert forall c: char :: IsAscii(c) ==> (t.isWord(c) <==> IsAsciiWordChar(c));
  }
}
