/**
 Python string operations the classifier relies on, over `string` (`seq<char>`):
 `str.strip`, `str.find`, `in`, `str.split(x)[0]`, `str.startswith` and `str.endswith`.
 */
module Text {
  import opened Optional

  /** Python's `str.isspace` for one character: the ASCII separators tab to carriage
      return, the information separators 0x1C..0x1F, space, and the Unicode space
      characters (next line, no-break space, ogham space mark, the en quad to hair space
      range, line and paragraph separators, narrow no-break, medium mathematical and
      ideographic space). */
  predicate IsSpace(c: char) {
    || '\t' <= c <= '\r'
    || '\U{001C}' <= c <= ' '
    || c == '\U{0085}' || c == '\U{00A0}' || c == '\U{1680}'
    || '\U{2000}' <= c <= '\U{200A}'
    || c == '\U{2028}' || c == '\U{2029}' || c == '\U{202F}' || c == '\U{205F}' || c == '\U{3000}'
  }

  /** The ASCII decimal digits; Python's `\d` also accepts other Unicode digits. */
  predicate IsAsciiDigit(c: char) {
    '0' <= c <= '9'
  }

  /** Index of the first non-whitespace character (|s| when there is none). */
  function LeadingSpaces(s: string): (n: nat)
    ensures n <= |s|
    ensures forall i :: 0 <= i < n ==> IsSpace(s[i])
    ensures n == |s| || !IsSpace(s[n])
  {
    SpacesFrom(s, 0)
  }

  /** Index of the first non-whitespace character at or after `i`. */
  function SpacesFrom(s: string, i: nat): (n: nat)
    requires i <= |s|
    ensures i <= n <= |s|
    ensures forall j :: i <= j < n ==> IsSpace(s[j])
    ensures n == |s| || !IsSpace(s[n])
    decreases |s| - i
  {
    if i < |s| && IsSpace(s[i]) then SpacesFrom(s, i + 1) else i
  }

  /** Index just past the last non-whitespace character of `s`, or `LeadingSpaces(s)`
      when `s` is all whitespace. */
  function StripEnd(s: string): (e: nat)
    ensures LeadingSpaces(s) <= e <= |s|
    ensures forall i :: e <= i < |s| ==> IsSpace(s[i])
    ensures e == LeadingSpaces(s) || !IsSpace(s[e - 1])
  {
    var w := LeadingSpaces(s);
    if w == |s| then w else ContentEnd(s, w, |s|)
  }

  /** Index just past the last non-whitespace character before `e`, knowing `s[w]` is
      not whitespace. */
  function ContentEnd(s: string, w: nat, e: nat): (r: nat)
    requires w < e <= |s| && !IsSpace(s[w])
    ensures w < r <= e
    ensures forall i :: r <= i < e ==> IsSpace(s[i])
    ensures !IsSpace(s[r - 1])
    decreases e
  {
    if IsSpace(s[e - 1]) then ContentEnd(s, w, e - 1) else e
  }

  /** Python's `str.strip()`: the piece of `s` between its leading and trailing whitespace. */
  function Strip(s: string): string {
    s[LeadingSpaces(s)..StripEnd(s)]
  }

  /** The stripped text is empty exactly when the whole text is whitespace, and
      otherwise begins and ends with non-whitespace. */
  lemma StripBounds(s: string)
    ensures Strip(s) == [] <==> forall i :: 0 <= i < |s| ==> IsSpace(s[i])
    ensures Strip(s) == [] || (!IsSpace(Strip(s)[0]) && !IsSpace(Strip(s)[|Strip(s)| - 1]))
  {
  }

  /** A text that begins and ends with non-whitespace is its own strip. */
  lemma StripOfTrimmed(s: string)
    requires s != [] && !IsSpace(s[0]) && !IsSpace(s[|s| - 1])
    ensures Strip(s) == s
  {
    assert LeadingSpaces(s) == 0;
    assert StripEnd(s) == |s|;
  }

  lemma DigitNotSpace(c: char)
    requires IsAsciiDigit(c)
    ensures !IsSpace(c)
  {
  }

  lemma StripIdempotent(s: string)
    ensures Strip(Strip(s)) == Strip(s)
  {
    var r := Strip(s);
    StripBounds(s);
    if r != [] {
      assert LeadingSpaces(r) == 0;
      assert StripEnd(r) == |r|;
    }
  }

  /** Whether `x` occurs in `s` starting at index `i`. */
  predicate OccursAt(s: string, x: string, i: nat) {
    i + |x| <= |s| && s[i..i + |x|] == x
  }

  function FindFrom(s: string, x: string, i: nat): (r: Option<nat>)
    ensures r.Some? ==> i <= r.value && OccursAt(s, x, r.value)
    ensures r.Some? ==> forall j: nat :: i <= j < r.value ==> !OccursAt(s, x, j)
    ensures r.None? ==> forall j: nat :: i <= j ==> !OccursAt(s, x, j)
    decreases |s| - i
  {
    if i + |x| > |s| then None
    else if OccursAt(s, x, i) then Some(i)
    else FindFrom(s, x, i + 1)
  }

  /** Python's `s.find(x)`, with `None` for -1: the first index at which `x` occurs. */
  function Find(s: string, x: string): (r: Option<nat>)
    ensures r.Some? ==> OccursAt(s, x, r.value)
    ensures r.Some? ==> forall j: nat :: j < r.value ==> !OccursAt(s, x, j)
    ensures r.None? ==> forall j: nat :: !OccursAt(s, x, j)
  {
    FindFrom(s, x, 0)
  }

  /** Python's `x in s` for strings. */
  predicate Contains(s: string, x: string) {
    Find(s, x).Some?
  }

  /** Python's `s.split(x)[0]`: the prefix of `s` before the first occurrence of `x`,
      or the whole of `s` when `x` does not occur. */
  function Before(s: string, x: string): (r: string)
    ensures |r| <= |s| && r == s[..|r|]
    ensures forall j: nat :: j < |r| ==> !OccursAt(s, x, j)
    ensures |r| < |s| ==> OccursAt(s, x, |r|)
    ensures |r| == |s| ==> !Contains(s, x) || x == []
  {
    match Find(s, x)
    case Some(i) => s[..i]
    case None => s
  }

  predicate StartsWith(s: string, p: string) {
    |p| <= |s| && s[..|p|] == p
  }

  predicate EndsWith(s: string, p: string) {
    |p| <= |s| && s[|s| - |p|..] == p
  }

  /** For a pattern that ends with non-whitespace, the stripped text starts with it
      exactly when it sits right after the leading whitespace. */
  lemma StripStartsWith(s: string, p: string)
    requires p != [] && !IsSpace(p[|p| - 1])
    ensures StartsWith(Strip(s), p)
        <==> (LeadingSpaces(s) + |p| <= |s| && s[LeadingSpaces(s)..LeadingSpaces(s) + |p|] == p)
  {
    var w := LeadingSpaces(s);
    if w + |p| <= |s| && s[w..w + |p|] == p {
      StripKeepsFirstWord(s, p, w, StripEnd(s));
    }
    if StartsWith(Strip(s), p) {
      StripFirstWord(s, p, w, StripEnd(s));
    }
  }

  lemma StripKeepsFirstWord(s: string, p: string, w: nat, e: nat)
    requires p != [] && !IsSpace(p[|p| - 1])
    requires w <= e <= |s| && forall i :: e <= i < |s| ==> IsSpace(s[i])
    requires w + |p| <= |s| && s[w..w + |p|] == p
    ensures StartsWith(s[w..e], p)
  {
    var last := w + |p| - 1;
    assert s[last] == p[|p| - 1];
    assert last < e;
    var t := s[w..e];
    assert t[..|p|] == s[w..w + |p|];
  }

  lemma StripFirstWord(s: string, p: string, w: nat, e: nat)
    requires w <= e <= |s|
    requires StartsWith(s[w..e], p)
    ensures w + |p| <= |s| && s[w..w + |p|] == p
  {
    assert s[w..e][..|p|] == s[w..w + |p|];
  }

  /** Cutting a text anywhere after its first word keeps the stripped text's first word. */
  lemma StripPrefixKeepsWord(u: string, p: string, m: nat)
    requires p != [] && !IsSpace(p[|p| - 1])
    requires LeadingSpaces(u) + |p| <= m <= |u|
    requires u[LeadingSpaces(u)..LeadingSpaces(u) + |p|] == p
    ensures StartsWith(Strip(u[..m]), p)
  {
    var w := LeadingSpaces(u);
    var t := u[..m];
    SliceOfPrefix(u, m, w, w + |p|);
    LeadingSpacesOfPrefix(u, m);
    StripKeepsFirstWord(t, p, w, StripEnd(t));
  }

  lemma SliceOfPrefix(s: string, m: nat, i: nat, j: nat)
    requires i <= j <= m <= |s|
    ensures s[..m][i..j] == s[i..j]
  {
  }

  /** A prefix keeps the leading whitespace count when it reaches a non-whitespace character. */
  lemma LeadingSpacesOfPrefix(s: string, k: nat)
    requires LeadingSpaces(s) < k <= |s|
    ensures LeadingSpaces(s[..k]) == LeadingSpaces(s)
  {
    var w := LeadingSpaces(s);
    assert s[..k][w] == s[w];
  }

  /** A one-character pattern occurs exactly where that character stands. */
  lemma CharOccurrences(s: string, c: char)
    ensures forall j: nat :: j < |s| ==> (OccursAt(s, [c], j) <==> s[j] == c)
  {
    forall j: nat | j < |s|
      ensures OccursAt(s, [c], j) <==> s[j] == c
    {
      if s[j] == c {
        assert s[j..j + 1] == [c];
      }
    }
  }

  /** An occurrence of a pattern is an occurrence of each of its prefixes. */
  lemma OccursAtPrefix(s: string, x: string, n: nat, i: nat)
    requires OccursAt(s, x, i) && n <= |x|
    ensures OccursAt(s, x[..n], i)
  {
    assert s[i..i + n] == s[i..i + |x|][..n];
  }
  /** A pattern one of whose characters never appears in `s` does not occur in `s`. */
  lemma AbsentNotContained(s: string, x: string, k: nat)
    requires k < |x| && x[k] !in s
    ensures !Contains(s, x)
  {
  }

  /** A pattern whose first character is absent from `p` first occurs right after `p`. */
  lemma BeforeFirst(p: string, x: string, q: string)
    requires x != [] && x[0] !in p
    ensures Contains(p + x + q, x) && Before(p + x + q, x) == p
  {
    var s := p + x + q;
    assert s[|p|..|p| + |x|] == x;
    forall j: nat | j < |p|
      ensures !OccursAt(s, x, j)
    {
      assert s[j] == p[j] && p[j] in p;
      if j + |x| <= |s| {
        assert s[j..j + |x|][0] == s[j];
      }
    }
    assert OccursAt(s, x, |p|);
    var r := Find(s, x);
    assert r.Some? && r.value == |p|;
    assert s[..|p|] == p;
  }

  /** Leading whitespace before a trimmed text is stripped away. */
  lemma StripPadded(pad: string, t: string)
    requires forall i :: 0 <= i < |pad| ==> IsSpace(pad[i])
    requires t != [] && !IsSpace(t[0]) && !IsSpace(t[|t| - 1])
    ensures Strip(pad + t) == t
  {
    var s := pad + t;
    assert s[|pad|] == t[0] && s[|s| - 1] == t[|t| - 1];
    assert forall i :: 0 <= i < |pad| ==> s[i] == pad[i];
    assert LeadingSpaces(s) == |pad|;
    assert StripEnd(s) == |s|;
    assert s[|pad|..] == t;
  }

  /** A trailing space after a trimmed text is stripped away. */
  lemma StripTrailingSpace(t: string)
    requires t != [] && !IsSpace(t[0]) && !IsSpace(t[|t| - 1])
    ensures Strip(t + " ") == t
  {
    var s := t + " ";
    assert s[0] == t[0] && s[|t| - 1] == t[|t| - 1] && IsSpace(s[|t|]);
    assert LeadingSpaces(s) == 0;
    assert StripEnd(s) == |t|;
    assert s[..|t|] == t;
  }
}
