/**
 The line classifier of make_assembly_matrix.py: `normalize_instance_suffix`,
 `compute_level` and `extract_name_and_type`, which turn one line of a CAD tree
 export into a depth and an optional (name, kind) pair.
 */
module Classifier {
  import opened Optional
  import opened Text

  datatype Kind = Assembly | Part

  /** The two tree-branch glyphs of the export, '├' and '└', and the dash '─' after them. */
  const MiddleBranch: char := '\U{251C}'
  const LastBranch: char := '\U{2514}'
  const BranchDash: char := '\U{2500}'

  /** Names with this prefix denote pattern containers, never physical items. */
  const CircularPrefix: string := "Circular_"

  predicate IsBranchGlyph(c: char) {
    c == MiddleBranch || c == LastBranch
  }

  // ---------------- normalize_instance_suffix ----------------

  /** `^(.*?)(\d{3})$` matches: three final digits, and no line break before them
      (`.` does not match '\n'). */
  predicate HasInstanceSuffix(s: string) {
    && |s| >= 3
    && IsAsciiDigit(s[|s| - 3]) && IsAsciiDigit(s[|s| - 2]) && IsAsciiDigit(s[|s| - 1])
    && '\n' !in s[..|s| - 3]
  }

  /** Strips the name, then drops a trailing three-digit instance counter: the result
      is the stripped name with either nothing or exactly three digits cut off its end,
      and the digits are cut exactly when the pattern matches. */
  function NormalizeInstanceSuffix(name: string): (r: string)
    ensures |r| <= |Strip(name)| && r == Strip(name)[..|r|]
    ensures |r| == |Strip(name)| || |r| + 3 == |Strip(name)|
    ensures forall i :: |r| <= i < |Strip(name)| ==> IsAsciiDigit(Strip(name)[i])
    ensures |r| < |Strip(name)| <==> HasInstanceSuffix(Strip(name))
  {
    var s := Strip(name);
    if HasInstanceSuffix(s) then s[..|s| - 3] else s
  }

  /** Appending a three-digit counter to a stripped, single-line name is undone by
      normalisation. */
  lemma InstanceSuffixRoundTrip(base: string, digits: string)
    requires Strip(base) == base && '\n' !in base
    requires |digits| == 3 && forall i :: 0 <= i < 3 ==> IsAsciiDigit(digits[i])
    ensures NormalizeInstanceSuffix(base + digits) == base
  {
    var s := base + digits;
    assert s[|s| - 1] == digits[2];
    DigitNotSpace(digits[2]);
    if base != [] {
      StripBounds(base);
      assert s[0] == base[0];
    } else {
      assert s[0] == digits[0];
      DigitNotSpace(digits[0]);
    }
    StripOfTrimmed(s);
    assert s[..|s| - 3] == base;
    assert s[|s| - 3..] == digits;
  }

  /** Normalisation can only drop characters, so a prefix of its result is a prefix of
      the stripped name. */
  lemma NormalizedStartsWith(name: string, p: string)
    requires StartsWith(NormalizeInstanceSuffix(name), p)
    ensures StartsWith(Strip(name), p)
  {
    var r := NormalizeInstanceSuffix(name);
    assert Strip(name)[..|p|] == r[..|p|];
  }

  // ---------------- compute_level ----------------

  /** The smaller of `line.find("├")` and `line.find("└")` among those that are found. */
  function GlyphIndex(line: string): (r: Option<nat>)
    ensures r.Some? ==> r.value < |line| && IsBranchGlyph(line[r.value])
    ensures r.Some? ==> forall j :: 0 <= j < r.value ==> !IsBranchGlyph(line[j])
    ensures r.None? ==> forall j :: 0 <= j < |line| ==> !IsBranchGlyph(line[j])
  {
    CharOccurrences(line, MiddleBranch);
    CharOccurrences(line, LastBranch);
    match (Find(line, [MiddleBranch]), Find(line, [LastBranch]))
    case (Some(i), Some(j)) => Some(if i < j then i else j)
    case (Some(i), None) => Some(i)
    case (None, Some(j)) => Some(j)
    case (None, None) => None
  }

  /** `((idx - 1) // 4) + 1`: the glyph sits in the level-th band of four columns. Python's
      `//` floors and Dafny's `/` is Euclidean; they agree here because the divisor is
      positive, so index 0 gives level 0. */
  function LevelOfIndex(idx: nat): (level: nat)
    ensures 4 * level - 3 <= idx <= 4 * level
  {
    ((idx - 1) / 4) + 1
  }

  /** The depth of a line: 0 without a branch glyph, else the band of its first glyph. */
  function ComputeLevel(line: string): (level: nat)
    ensures GlyphIndex(line).None? ==> level == 0
    ensures GlyphIndex(line).Some? ==> 4 * level - 3 <= GlyphIndex(line).value <= 4 * level
  {
    match GlyphIndex(line)
    case None => 0
    case Some(idx) => LevelOfIndex(idx)
  }

  /** A glyph further right never gives a smaller level. */
  lemma LevelMonotone(i: nat, j: nat)
    requires i <= j
    ensures LevelOfIndex(i) <= LevelOfIndex(j)
  {
  }

  // ---------------- extract_name_and_type ----------------

  /** A branch glyph followed by the dash stands at index `i`. */
  predicate IsBranchAt(s: string, i: nat) {
    i + 2 <= |s| && IsBranchGlyph(s[i]) && s[i + 1] == BranchDash
  }

  /** One attempt of `re.search(r"[├└]─\s*(.*)$", stripped)` at index `i`: a glyph, the
      dash, the longest run of whitespace, then the rest, which `.` must cover without
      crossing a line break. */
  function BranchMatchAt(s: string, i: nat): Option<string> {
    if IsBranchAt(s, i) then
      var rest := s[i + 2..];
      var body := rest[LeadingSpaces(rest)..];
      if '\n' in body then None else Some(body)
    else None
  }

  /** The leftmost successful match at or after index `i`. */
  function SearchBranch(s: string, i: nat): Option<string>
    decreases |s| - i
  {
    if i >= |s| then None
    else
      match BranchMatchAt(s, i)
      case Some(body) => Some(body)
      case None => SearchBranch(s, i + 1)
  }

  /** The `content` of a stripped line: the text after its first branch glyph and dash,
      or the whole line when it has none. */
  function Content(stripped: string): string {
    match SearchBranch(stripped, 0)
    case Some(body) => body
    case None => stripped
  }

  /** On a single-line text, the content is what follows the first glyph-and-dash pair,
      with its leading whitespace removed. */
  lemma ContentAfterFirstBranch(s: string, i: nat)
    requires '\n' !in s
    requires IsBranchAt(s, i) && forall j: nat :: j < i ==> !IsBranchAt(s, j)
    ensures Content(s) == s[i + 2..][LeadingSpaces(s[i + 2..])..]
  {
    SearchReaches(s, 0, i);
  }

  lemma {:induction false} SearchReaches(s: string, k: nat, i: nat)
    requires '\n' !in s
    requires k <= i && IsBranchAt(s, i) && forall j: nat :: j < i ==> !IsBranchAt(s, j)
    ensures SearchBranch(s, k) == Some(s[i + 2..][LeadingSpaces(s[i + 2..])..])
    decreases i - k
  {
    var rest := s[i + 2..];
    var body := rest[LeadingSpaces(rest)..];
    assert '\n' !in body by {
      forall c | c in body
        ensures c != '\n'
      {
        var j :| 0 <= j < |body| && body[j] == c;
        assert c == s[i + 2 + LeadingSpaces(rest) + j];
      }
    }
    if k < i {
      assert !IsBranchAt(s, k);
      SearchReaches(s, k + 1, i);
    }
  }

  /** Trailing words that mark configuration and constraint folders. */
  predicate IsMetadata(stripped: string) {
    EndsWith(stripped, "Constraints") || EndsWith(stripped, "Configurations")
  }

  /** The top header form `Name (Assembly) @ ...`, without an arrow. */
  predicate IsHeader(content: string) {
    Contains(content, "(Assembly)") && Contains(content, "@") && !Contains(content, "=>")
  }

  /** `content.split("=>")[0].split("(")[0].strip()`. */
  function Lead(content: string): string {
    Strip(Before(Before(content, "=>"), "("))
  }

  predicate IsPartMarker(content: string) {
    Contains(content, "=> Body") || Contains(content, "=> Part")
  }

  predicate IsAnnotated(content: string) {
    Contains(content, "(") && Contains(content, ")")
  }

  /** `content.split(sep)[0].strip()`, normalised: the name a rule reads off the text
      before its separator. */
  function NameBefore(content: string, sep: string): (r: string)
    ensures |r| <= |Strip(Before(content, sep))| && r == Strip(Before(content, sep))[..|r|]
  {
    NormalizeInstanceSuffix(Strip(Before(content, sep)))
  }

  /** The first-match classifier. A name comes with a kind and a kind with a name;
      metadata lines give neither; an assembly comes from the header form or an
      `=> Assembly` marker; a part comes from a body/part marker or a parenthesised
      annotation once both assembly forms are ruled out; a line with none of these
      forms gives neither. Rule by rule, in order: a header names the text before
      `(Assembly)` unless that is a `Circular_` container; otherwise a `Circular_` lead
      gives nothing; otherwise `=> Assembly`, then `=> Body`/`=> Part`, then a
      parenthesis name the text before `=> Assembly`, `=>` and `(` respectively. */
  function ExtractNameAndType(line: string): (r: (Option<string>, Option<Kind>))
    ensures r.0.Some? <==> r.1.Some?
    ensures IsMetadata(Strip(line)) ==> r == (None, None)
    ensures r.1 == Some(Assembly) ==>
              IsHeader(Content(Strip(line))) || Contains(Content(Strip(line)), "=> Assembly")
    ensures r.1 == Some(Part) ==>
              && !IsHeader(Content(Strip(line)))
              && !Contains(Content(Strip(line)), "=> Assembly")
              && (IsPartMarker(Content(Strip(line))) || IsAnnotated(Content(Strip(line))))
    ensures var c := Content(Strip(line));
            !IsHeader(c) && !Contains(c, "=> Assembly") && !IsPartMarker(c) && !IsAnnotated(c)
            ==> r == (None, None)
    ensures var c := Content(Strip(line));
            && !IsMetadata(Strip(line)) && IsHeader(c)
            ==> r == if StartsWith(NameBefore(c, "(Assembly)"), CircularPrefix) then (None, None)
                     else (Some(NameBefore(c, "(Assembly)")), Some(Assembly))
    ensures var c := Content(Strip(line));
            !IsHeader(c) && StartsWith(Lead(c), CircularPrefix) ==> r == (None, None)
    ensures var c := Content(Strip(line));
            && !IsMetadata(Strip(line)) && !IsHeader(c) && !StartsWith(Lead(c), CircularPrefix)
            ==> r == if Contains(c, "=> Assembly") then (Some(NameBefore(c, "=> Assembly")), Some(Assembly))
                     else if IsPartMarker(c) then (Some(NameBefore(c, "=>")), Some(Part))
                     else if IsAnnotated(c) then (Some(NameBefore(c, "(")), Some(Part))
                     else (None, None)
  {
    var stripped := Strip(line);
    if IsMetadata(stripped) then (None, None)
    else
      var content := Content(stripped);
      if IsHeader(content) then
        var base := NameBefore(content, "(Assembly)");
        if StartsWith(base, CircularPrefix) then (None, None) else (Some(base), Some(Assembly))
      else if StartsWith(Lead(content), CircularPrefix) then (None, None)
      else if Contains(content, "=> Assembly") then (Some(NameBefore(content, "=> Assembly")), Some(Assembly))
      else if IsPartMarker(content) then (Some(NameBefore(content, "=>")), Some(Part))
      else if IsAnnotated(content) then (Some(NameBefore(content, "(")), Some(Part))
      else (None, None)
  }

  /** A blank line is not classified as anything. */
  lemma BlankLineUnnamed(line: string)
    requires Strip(line) == []
    ensures ExtractNameAndType(line) == (None, None)
  {
    assert Content([]) == [];
  }

  /** The prefix that `Lead` strips ends at the first '(' or "=>" (or the end). */
  lemma LeadBoundary(s: string) returns (m: nat)
    ensures m <= |s| && Before(Before(s, "=>"), "(") == s[..m]
    ensures forall j: nat :: j < m ==> s[j] != '(' && !OccursAt(s, "=>", j)
    ensures m == |s| || s[m] == '(' || OccursAt(s, "=>", m)
  {
    var b1 := Before(s, "=>");
    var b2 := Before(b1, "(");
    m := |b2|;
    CharOccurrences(b1, '(');
    forall j: nat | j < m
      ensures s[j] != '(' && !OccursAt(s, "=>", j)
    {
      assert b1[j] == s[j];
    }
    if m < |b1| {
      assert b1[m] == s[m];
    }
  }

  /** A marker that begins with '(' or with "=>" cannot occur before the lead ends. */
  lemma MarkerAfterLead(s: string, m: nat, k: nat)
    requires m <= |s| && forall j: nat :: j < m ==> s[j] != '(' && !OccursAt(s, "=>", j)
    requires k <= |s| && (k == |s| || s[k] == '(' || OccursAt(s, "=>", k))
    ensures m <= k
  {
  }

  /** If the stripped text before a later marker starts with the reserved prefix, so
      does the lead: the prefix holds neither '(' nor "=>". */
  lemma CircularReachesLead(s: string, m: nat, k: nat)
    requires m <= k <= |s|
    requires forall j: nat :: j < m ==> s[j] != '(' && !OccursAt(s, "=>", j)
    requires m == |s| || s[m] == '(' || OccursAt(s, "=>", m)
    requires StartsWith(Strip(s[..k]), CircularPrefix)
    ensures StartsWith(Strip(s[..m]), CircularPrefix)
  {
    var c := CircularPrefix;
    var u := s[..k];
    StripStartsWith(u, c);
    LeadCoversPrefix(s, u, LeadingSpaces(u), m);
    StripPrefixKeepsWord(u, c, m);
    assert u[..m] == s[..m];
  }

  /** The lead's end lies past the reserved prefix when that prefix follows whitespace. */
  lemma LeadCoversPrefix(s: string, u: string, w: nat, m: nat)
    requires m <= |u| <= |s| && u == s[..|u|]
    requires w + |CircularPrefix| <= |u| && u[w..w + |CircularPrefix|] == CircularPrefix
    requires forall i :: 0 <= i < w ==> IsSpace(u[i])
    requires m == |s| || s[m] == '(' || OccursAt(s, "=>", m)
    ensures w + |CircularPrefix| <= m
  {
    NoMarkerInPrefix(u, w);
    if m < |u| {
      MarkerChar(s, u, m);
    }
  }

  /** Neither whitespace nor the letters of `Circular_` are a `(` or the `=` of `=>`. */
  lemma NoMarkerInPrefix(u: string, w: nat)
    requires w + |CircularPrefix| <= |u| && u[w..w + |CircularPrefix|] == CircularPrefix
    requires forall i :: 0 <= i < w ==> IsSpace(u[i])
    ensures forall j :: 0 <= j < w + |CircularPrefix| ==> u[j] != '(' && u[j] != '='
  {
    forall j | 0 <= j < w + |CircularPrefix|
      ensures u[j] != '(' && u[j] != '='
    {
      if j >= w {
        assert u[j] == CircularPrefix[j - w];
      }
    }
  }

  lemma MarkerChar(s: string, u: string, m: nat)
    requires m < |u| <= |s| && u == s[..|u|]
    requires s[m] == '(' || OccursAt(s, "=>", m)
    ensures u[m] == '(' || u[m] == '='
  {
  }

  /** No name the classifier returns starts with `Circular_`. */
  lemma ExtractNeverCircular(line: string)
    ensures var r := ExtractNameAndType(line);
            r.0.Some? ==> !StartsWith(r.0.value, CircularPrefix)
  {
    var stripped := Strip(line);
    if !IsMetadata(stripped) {
      var content := Content(stripped);
      if !IsHeader(content) && !StartsWith(Lead(content), CircularPrefix) {
        if Contains(content, "=> Assembly") {
          AssemblyNameNotCircular(content);
        } else if IsPartMarker(content) {
          ArrowNameNotCircular(content);
        } else {
          ParenNameNotCircular(content);
        }
      }
    }
  }

  lemma AssemblyNameNotCircular(content: string)
    requires !StartsWith(Lead(content), CircularPrefix)
    ensures !StartsWith(NameBefore(content, "=> Assembly"), CircularPrefix)
  {
    var k := |Before(content, "=> Assembly")|;
    if k < |content| {
      AssemblyMarkerIsArrow(content, k);
    }
    CutNameNotCircular(content, k);
  }

  lemma AssemblyMarkerIsArrow(s: string, k: nat)
    requires OccursAt(s, "=> Assembly", k)
    ensures OccursAt(s, "=>", k)
  {
    OccursAtPrefix(s, "=> Assembly", 2, k);
    assert "=> Assembly"[..2] == "=>";
  }

  lemma ArrowNameNotCircular(content: string)
    requires !StartsWith(Lead(content), CircularPrefix)
    ensures !StartsWith(NameBefore(content, "=>"), CircularPrefix)
  {
    CutNameNotCircular(content, |Before(content, "=>")|);
  }

  lemma ParenNameNotCircular(content: string)
    requires !StartsWith(Lead(content), CircularPrefix)
    ensures !StartsWith(NameBefore(content, "("), CircularPrefix)
  {
    var k := |Before(content, "(")|;
    if k < |content| {
      CharOccurrences(content, '(');
    }
    CutNameNotCircular(content, k);
  }

  /** Cutting the content at a '(' or "=>" (or at its end) never yields a name with the
      reserved prefix unless the lead has it. */
  lemma CutNameNotCircular(content: string, k: nat)
    requires k <= |content| && (k == |content| || content[k] == '(' || OccursAt(content, "=>", k))
    requires !StartsWith(Lead(content), CircularPrefix)
    ensures !StartsWith(NormalizeInstanceSuffix(Strip(content[..k])), CircularPrefix)
  {
    var before := content[..k];
    if StartsWith(NormalizeInstanceSuffix(Strip(before)), CircularPrefix) {
      var m := LeadBoundary(content);
      MarkerAfterLead(content, m, k);
      NormalizedStartsWith(Strip(before), CircularPrefix);
      StripIdempotent(before);
      CircularReachesLead(content, m, k);
      assert false;
    }
  }
  // ---------------- lines of a given shape ----------------

  /** A text without branch glyphs is its own content. */
  lemma NoBranchContent(s: string)
    requires forall j :: 0 <= j < |s| ==> !IsBranchGlyph(s[j])
    ensures Content(s) == s
  {
    SearchNone(s, 0);
  }

  lemma {:induction false} SearchNone(s: string, k: nat)
    requires forall j :: 0 <= j < |s| ==> !IsBranchGlyph(s[j])
    ensures SearchBranch(s, k) == None
    decreases |s| - k
  {
    if k < |s| {
      assert !IsBranchAt(s, k);
      SearchNone(s, k + 1);
    }
  }

  /** After a glyph-free lead-in, a glyph, the dash and a space, the content is the rest. */
  lemma BranchLineContent(pre: string, body: string)
    requires forall j :: 0 <= j < |pre| ==> !IsBranchGlyph(pre[j])
    requires '\n' !in pre && '\n' !in body
    requires body != [] && !IsSpace(body[0])
    ensures Content(pre + [MiddleBranch, BranchDash, ' '] + body) == body
  {
    var s := pre + [MiddleBranch, BranchDash, ' '] + body;
    var i := |pre|;
    assert s[i] == MiddleBranch && s[i + 1] == BranchDash;
    forall j: nat | j < i
      ensures !IsBranchAt(s, j)
    {
      assert s[j] == pre[j];
    }
    ContentAfterFirstBranch(s, i);
    var rest := s[i + 2..];
    assert rest == [' '] + body;
    assert rest[0] == ' ' && rest[1] == body[0] && IsSpace(' ');
    assert LeadingSpaces(rest) == 1;
    assert rest[1..] == body;
  }

  /** The level of a line is set by the column of its first glyph. */
  lemma BranchLineLevel(pre: string, rest: string)
    requires forall j :: 0 <= j < |pre| ==> !IsBranchGlyph(pre[j])
    requires rest != [] && IsBranchGlyph(rest[0])
    ensures ComputeLevel(pre + rest) == LevelOfIndex(|pre|)
  {
    var s := pre + rest;
    assert s[|pre|] == rest[0];
    assert forall j :: 0 <= j < |pre| ==> s[j] == pre[j];
    assert GlyphIndex(s) == Some(|pre|);
  }

  /** A stripped line whose last character is not `s` is no metadata folder. */
  lemma NotMetadata(s: string)
    requires s != [] && s[|s| - 1] != 's'
    ensures !IsMetadata(s)
  {
  }

  /** A name without a trailing digit keeps all its characters. */
  lemma NormalizeNoSuffix(name: string)
    requires name != [] && !IsSpace(name[0]) && !IsSpace(name[|name| - 1])
    requires !IsAsciiDigit(name[|name| - 1])
    ensures NormalizeInstanceSuffix(name) == name
  {
    StripPadded([], name);
    assert [] + name == name;
  }

  lemma BeforeAbsent(s: string, x: string)
    requires x != [] && x[0] !in s
    ensures Before(s, x) == s
  {
    AbsentNotContained(s, x, 0);
  }

  /** A stripped name followed by a space reads back, after stripping and
      normalisation, as the name with its counter removed. */
  lemma PaddedNameNormalizes(name: string, digits: string)
    requires name != [] && !IsSpace(name[0]) && !IsSpace(name[|name| - 1]) && '\n' !in name
    requires |digits| == 3 && forall i :: 0 <= i < 3 ==> IsAsciiDigit(digits[i])
    ensures Strip(name + digits + " ") == name + digits
    ensures NormalizeInstanceSuffix(Strip(name + digits + " ")) == name
  {
    var n := name + digits;
    assert n[0] == name[0] && n[|n| - 1] == digits[2];
    DigitNotSpace(digits[2]);
    StripTrailingSpace(n);
    StripPadded([], name);
    assert [] + name == name;
    InstanceSuffixRoundTrip(name, digits);
  }

  /** The header text `name (Assembly) @tail` is a header whose name is `name`. */
  lemma HeaderForm(name: string, tail: string)
    requires name != [] && !IsSpace(name[0]) && !IsSpace(name[|name| - 1]) && !IsAsciiDigit(name[|name| - 1])
    requires '(' !in name && '@' !in name && '=' !in name && '=' !in tail
    ensures IsHeader(name + " (Assembly) @" + tail)
    ensures NameBefore(name + " (Assembly) @" + tail, "(Assembly)") == name
  {
    HeaderMarkers(name, tail);
    var c := name + " (Assembly) @" + tail;
    assert c == (name + " ") + "(Assembly)" + (" @" + tail);
    BeforeFirst(name + " ", "(Assembly)", " @" + tail);
    StripTrailingSpace(name);
    NormalizeNoSuffix(name);
  }

  lemma HeaderMarkers(name: string, tail: string)
    requires '(' !in name && '@' !in name && '=' !in name && '=' !in tail
    ensures IsHeader(name + " (Assembly) @" + tail)
  {
    HasAssemblyTag(name, tail);
    HasAt(name, tail);
    HasNoArrow(name, tail);
  }

  lemma HasAssemblyTag(name: string, tail: string)
    requires '(' !in name
    ensures Contains(name + " (Assembly) @" + tail, "(Assembly)")
  {
    assert name + " (Assembly) @" + tail == (name + " ") + "(Assembly)" + (" @" + tail);
    BeforeFirst(name + " ", "(Assembly)", " @" + tail);
  }

  lemma HasAt(name: string, tail: string)
    requires '@' !in name
    ensures Contains(name + " (Assembly) @" + tail, "@")
  {
    assert name + " (Assembly) @" + tail == (name + " (Assembly) ") + "@" + tail;
    BeforeFirst(name + " (Assembly) ", "@", tail);
  }

  lemma HasNoArrow(name: string, tail: string)
    requires '=' !in name && '=' !in tail
    ensures !Contains(name + " (Assembly) @" + tail, "=>")
  {
    AbsentNotContained(name + " (Assembly) @" + tail, "=>", 0);
  }

  /** The text `name###  => Assembly` names the assembly `name` and its lead is the
      counted name. */
  lemma ArrowAssemblyForm(name: string, digits: string)
    requires name != [] && !IsSpace(name[0]) && !IsSpace(name[|name| - 1]) && '\n' !in name
    requires '(' !in name && '=' !in name
    requires |digits| == 3 && forall i :: 0 <= i < 3 ==> IsAsciiDigit(digits[i])
    ensures !IsHeader(name + digits + " => Assembly")
    ensures Lead(name + digits + " => Assembly") == name + digits
    ensures Contains(name + digits + " => Assembly", "=> Assembly")
    ensures NameBefore(name + digits + " => Assembly", "=> Assembly") == name
  {
    var n := name + digits;
    var c := n + " => Assembly";
    assert '=' !in n + " " && '(' !in n + " ";
    assert c == (n + " ") + "=>" + " Assembly";
    BeforeFirst(n + " ", "=>", " Assembly");
    BeforeAbsent(n + " ", "(");
    assert c == (n + " ") + "=> Assembly" + "";
    BeforeFirst(n + " ", "=> Assembly", "");
    PaddedNameNormalizes(name, digits);
  }

  /** The text `name### (note)` with no arrow names the part `name`. */
  lemma AnnotatedPartForm(name: string, digits: string, note: string)
    requires name != [] && !IsSpace(name[0]) && !IsSpace(name[|name| - 1]) && '\n' !in name
    requires '(' !in name && ')' !in name && '=' !in name && '@' !in name
    requires ')' !in note && '=' !in note && '@' !in note
    requires |digits| == 3 && forall i :: 0 <= i < 3 ==> IsAsciiDigit(digits[i])
    ensures !IsHeader(name + digits + " (" + note + ")")
    ensures Lead(name + digits + " (" + note + ")") == name + digits
    ensures !Contains(name + digits + " (" + note + ")", "=> Assembly")
    ensures !IsPartMarker(name + digits + " (" + note + ")")
    ensures IsAnnotated(name + digits + " (" + note + ")")
    ensures NameBefore(name + digits + " (" + note + ")", "(") == name
  {
    var n := name + digits;
    var c := n + " (" + note + ")";
    assert '=' !in c && '@' !in c && '(' !in n + " " && ')' !in n + " (" + note;
    AbsentNotContained(c, "@", 0);
    BeforeAbsent(c, "=>");
    assert c == (n + " ") + "(" + (note + ")");
    BeforeFirst(n + " ", "(", note + ")");
    AbsentNotContained(c, "=> Assembly", 0);
    AbsentNotContained(c, "=> Body", 0);
    AbsentNotContained(c, "=> Part", 0);
    assert c == (n + " (" + note) + ")" + "";
    BeforeFirst(n + " (" + note, ")", "");
    PaddedNameNormalizes(name, digits);
  }

  /** A line whose content has the header form names the assembly before `(Assembly)`. */
  lemma HeaderRule(line: string, name: string, tail: string)
    requires Content(Strip(line)) == name + " (Assembly) @" + tail && !IsMetadata(Strip(line))
    requires name != [] && !IsSpace(name[0]) && !IsSpace(name[|name| - 1]) && !IsAsciiDigit(name[|name| - 1])
    requires '(' !in name && '@' !in name && '=' !in name && '=' !in tail
    requires !StartsWith(name, CircularPrefix)
    ensures ExtractNameAndType(line) == (Some(name), Some(Assembly))
  {
    HeaderForm(name, tail);
  }

  /** A line whose content is a counted name and `=> Assembly` names that assembly. */
  lemma ArrowAssemblyRule(line: string, name: string, digits: string)
    requires Content(Strip(line)) == name + digits + " => Assembly" && !IsMetadata(Strip(line))
    requires name != [] && !IsSpace(name[0]) && !IsSpace(name[|name| - 1]) && '\n' !in name
    requires '(' !in name && '=' !in name
    requires |digits| == 3 && forall i :: 0 <= i < 3 ==> IsAsciiDigit(digits[i])
    requires !StartsWith(name + digits, CircularPrefix)
    ensures ExtractNameAndType(line) == (Some(name), Some(Assembly))
  {
    ArrowAssemblyForm(name, digits);
  }

  /** A line whose content is a counted name and a parenthesised note names that part. */
  lemma AnnotatedPartRule(line: string, name: string, digits: string, note: string)
    requires Content(Strip(line)) == name + digits + " (" + note + ")" && !IsMetadata(Strip(line))
    requires name != [] && !IsSpace(name[0]) && !IsSpace(name[|name| - 1]) && '\n' !in name
    requires '(' !in name && ')' !in name && '=' !in name && '@' !in name
    requires ')' !in note && '=' !in note && '@' !in note
    requires |digits| == 3 && forall i :: 0 <= i < 3 ==> IsAsciiDigit(digits[i])
    requires !StartsWith(name + digits, CircularPrefix)
    ensures ExtractNameAndType(line) == (Some(name), Some(Part))
  {
    AnnotatedPartForm(name, digits, note);
  }
}
