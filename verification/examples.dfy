/**
 Worked examples: instance-suffix normalisation, levels, the classification and parse
 of the text lines of a small export, and the rollup of a root holding two copies of a
 sub-assembly.
 */
module Examples {
  import opened Optional
  import opened Text
  import opened Classifier
  import opened Counters
  import opened Parser
  import opened Rollup
  import opened ParseFacts

  /** `Body003` loses its instance suffix. */
  lemma NormalizeBody003()
    ensures NormalizeInstanceSuffix("Body003") == "Body"
  {
    assert !IsSpace('B') && !IsSpace('y');
    StripOfTrimmed("Body");
    InstanceSuffixRoundTrip("Body", "003");
    assert "Body" + "003" == "Body003";
  }

  /** `Bracket007` loses its instance suffix. */
  lemma NormalizeBracket007()
    ensures NormalizeInstanceSuffix("Bracket007") == "Bracket"
  {
    BracketTrimmed();
    InstanceSuffixRoundTrip("Bracket", "007");
    assert "Bracket" + "007" == "Bracket007";
  }

  /** `Bracket` has no instance suffix to lose. */
  lemma NormalizeBracket()
    ensures NormalizeInstanceSuffix("Bracket") == "Bracket"
  {
    BracketTrimmed();
    assert !IsAsciiDigit("Bracket"[6]);
  }

  lemma BracketTrimmed()
    ensures Strip("Bracket") == "Bracket" && '\n' !in "Bracket"
  {
    assert !IsSpace('B') && !IsSpace('t');
    StripOfTrimmed("Bracket");
  }

  /** Only the last three digits go: `A001001` becomes `A001`, so normalising is not
      idempotent. */
  lemma NormalizeTwice()
    ensures NormalizeInstanceSuffix("A001001") == "A001"
    ensures NormalizeInstanceSuffix(NormalizeInstanceSuffix("A001001")) == "A"
  {
    NormalizeA001001();
    InstancesCollapse();
  }

  lemma NormalizeA001001()
    ensures NormalizeInstanceSuffix("A001001") == "A001"
  {
    assert !IsSpace('A') && !IsSpace('1');
    StripOfTrimmed("A001");
    InstanceSuffixRoundTrip("A001", "001");
    assert "A001" + "001" == "A001001";
  }

  /** Two instances of one assembly collapse to one name, which is how an assembly can
      come to list itself as a sub-assembly. */
  lemma InstancesCollapse()
    ensures NormalizeInstanceSuffix("A001") == NormalizeInstanceSuffix("A002") == "A"
  {
    InstanceSuffixRoundTrip("A", "001");
    assert "A" + "001" == "A001";
    InstanceSuffixRoundTrip("A", "002");
    assert "A" + "002" == "A002";
  }

  /** A line without a branch glyph, such as the top header, is at level 0. */
  lemma HeaderLevel()
    ensures ComputeLevel("Root (Assembly) @ top") == 0
  {
    var line := "Root (Assembly) @ top";
    assert forall j :: 0 <= j < |line| ==> !IsBranchGlyph(line[j]);
  }

  /** A glyph in column 0 gives level 0; one in column 4, after a vertical bar and
      three spaces, gives level 1. */
  lemma GlyphLevels()
    ensures ComputeLevel([MiddleBranch, BranchDash, ' ', 'X']) == 0
    ensures ComputeLevel(['\U{2502}', ' ', ' ', ' ', LastBranch, BranchDash, ' ', 'X']) == 1
  {
    var nested := ['\U{2502}', ' ', ' ', ' ', LastBranch, BranchDash, ' ', 'X'];
    assert IsBranchGlyph(nested[4]);
    assert forall j :: 0 <= j < 4 ==> !IsBranchGlyph(nested[j]);
  }

  /** Root holds two SubA, and SubA holds `bolts` Bolts. */
  function TwoSubA(bolts: nat): Tables {
    Tables(
      map["Root" := map["SubA" := 2], "SubA" := map["Bolt" := bolts]],
      map["Root" := map["SubA" := 2]],
      map["Root" := Assembly, "SubA" := Assembly, "Bolt" := Part],
      ["Root", "SubA"])
  }

  const TwoSubARank: map<string, nat> := map["Root" := 2, "SubA" := 1]

  /** Root rolls up to twice the bolts of one SubA: two SubA of two Bolts each give four. */
  lemma RootBolts(bolts: nat)
    ensures Ranked(TwoSubA(bolts).sub, TwoSubARank)
    ensures Count(RollupPartsFor(TwoSubA(bolts), TwoSubARank, "Root"), "Bolt") == 2 * bolts
  {
    var t := TwoSubA(bolts);
    assert Ranked(t.sub, TwoSubARank) by {
      forall a, c | HasSub(t.sub, a, c)
        ensures Height(TwoSubARank, c) < Height(TwoSubARank, a)
      {
        assert a == "Root" && c == "SubA";
      }
    }
    assert Row(t.sub, "SubA") == map[];
    RollupOfLeafAssembly(t, TwoSubARank, "SubA");
    assert Count(DirectParts(t, "SubA"), "Bolt") == bolts;
    assert Row(t.sub, "Root").Keys == {"SubA"};
    RollupSingleSub(t, TwoSubARank, "Root", "SubA", "Bolt");
    assert Count(DirectParts(t, "Root"), "Bolt") == 0;
  }

  lemma RootHoldsFourBolts()
    ensures Count(RollupPartsFor(TwoSubA(2), TwoSubARank, "Root"), "Bolt") == 4
  {
    RootBolts(2);
  }

  /** A metadata folder line gives nothing. */
  lemma ClassifyMetadata()
    ensures ExtractNameAndType("Mates Constraints") == (None, None)
  {
    assert EndsWith(Strip("Mates Constraints"), "Constraints") by {
      assert !IsSpace('M') && !IsSpace('s');
      StripOfTrimmed("Mates Constraints");
    }
  }

  function NamedLine(level: nat, name: string, kind: Kind): LineInfo {
    LineInfo(false, level, Some(name), Some(kind))
  }

  // ---------------- an export as text ----------------

  /** The top header of the export. */
  const RootLine: string := "Root (Assembly) @ top"

  /** The vertical bar that continues a branch one level up. */
  const Bar: char := '\U{2502}'

  /** The export either starts its top-level branches in column 0 or one space in. */
  function Pad(indented: bool): string {
    if indented then " " else ""
  }

  /** The level the top-level branches get: column 0 gives level 0, column 1 level 1. */
  function TopLevel(indented: bool): nat {
    if indented then 1 else 0
  }

  /** `SubA<digits> => Assembly`: the content of a SubA branch line. */
  function SubBody(digits: string): string {
    "SubA" + digits + " => Assembly"
  }

  /** `├─ SubA<digits> => Assembly`: a stripped SubA branch line. */
  function SubText(digits: string): string {
    [MiddleBranch, BranchDash, ' '] + SubBody(digits)
  }

  function SubLine(indented: bool, digits: string): string {
    Pad(indented) + SubText(digits)
  }

  /** `Bolt<digits> (Fastener)`: the content of a bolt line. */
  function BoltBody(digits: string): string {
    "Bolt" + digits + " (Fastener)"
  }

  /** `│   ├─ Bolt<digits> (Fastener)`: a stripped bolt line under a branch bar. */
  function BoltText(digits: string): string {
    [Bar, ' ', ' ', ' '] + [MiddleBranch, BranchDash, ' '] + BoltBody(digits)
  }

  function BoltLine(indented: bool, digits: string): string {
    Pad(indented) + BoltText(digits)
  }

  /** Root holding SubA001 with Bolt001 and Bolt002, then SubA002 with Bolt003. */
  function Export(indented: bool): seq<string> {
    [RootLine,
     SubLine(indented, "001"), BoltLine(indented, "001"), BoltLine(indented, "002"),
     SubLine(indented, "002"), BoltLine(indented, "003")]
  }

  /** The same tree once classified, with the top-level branches at `level` and the bolts
      one level deeper. */
  function TwoInstances(level: nat): seq<LineInfo> {
    [NamedLine(0, "Root", Assembly),
     NamedLine(level, "SubA", Assembly), NamedLine(level + 1, "Bolt", Part), NamedLine(level + 1, "Bolt", Part),
     NamedLine(level, "SubA", Assembly), NamedLine(level + 1, "Bolt", Part)]
  }

  predicate IsCounter(digits: string) {
    |digits| == 3 && forall i :: 0 <= i < 3 ==> IsAsciiDigit(digits[i])
  }

  /** A line with a visible character, a level and a name is classified as named. */
  lemma ClassifyNamed(line: string, i: nat, level: nat, name: string, kind: Kind)
    requires i < |line| && !IsSpace(line[i])
    requires ComputeLevel(line) == level && ExtractNameAndType(line) == (Some(name), Some(kind))
    ensures Classify(line) == NamedLine(level, name, kind)
  {
  }

  /** The header names the assembly Root at level 0. */
  lemma ClassifyRootLine()
    ensures Classify(RootLine) == NamedLine(0, "Root", Assembly)
  {
    ExtractRootLine();
    HeaderLevel();
    ClassifyNamed(RootLine, 0, 0, "Root", Assembly);
  }

  lemma ExtractRootLine()
    ensures ExtractNameAndType(RootLine) == (Some("Root"), Some(Assembly))
  {
    RootLineShape();
    HeaderRule(RootLine, "Root", " top");
  }

  lemma RootLineShape()
    ensures Content(Strip(RootLine)) == "Root" + " (Assembly) @" + " top"
    ensures !IsMetadata(Strip(RootLine))
  {
    RootLineStripped();
    RootLineNoGlyph();
    NoBranchContent(RootLine);
    RootLineEnds();
    NotMetadata(RootLine);
    RootLineSplit();
  }

  lemma RootLineEnds()
    ensures RootLine != [] && RootLine[|RootLine| - 1] == 'p'
  {
  }

  lemma RootLineSplit()
    ensures RootLine == "Root" + " (Assembly) @" + " top"
  {
  }

  lemma RootLineStripped()
    ensures Strip(RootLine) == RootLine
  {
    assert !IsSpace(RootLine[0]) && !IsSpace(RootLine[|RootLine| - 1]);
    StripPadded([], RootLine);
    assert [] + RootLine == RootLine;
  }

  lemma RootLineNoGlyph()
    ensures forall j :: 0 <= j < |RootLine| ==> !IsBranchGlyph(RootLine[j])
  {
  }

  /** A `SubA` branch line names the assembly SubA at the top level, whatever its counter. */
  lemma ClassifySubLine(indented: bool, digits: string)
    requires IsCounter(digits)
    ensures Classify(SubLine(indented, digits)) == NamedLine(TopLevel(indented), "SubA", Assembly)
  {
    ExtractSubLine(indented, digits);
    BranchLineLevel(Pad(indented), SubText(digits));
    assert SubLine(indented, digits)[|Pad(indented)|] == MiddleBranch;
    ClassifyNamed(SubLine(indented, digits), |Pad(indented)|, TopLevel(indented), "SubA", Assembly);
  }

  lemma ExtractSubLine(indented: bool, digits: string)
    requires IsCounter(digits)
    ensures ExtractNameAndType(SubLine(indented, digits)) == (Some("SubA"), Some(Assembly))
  {
    SubLineShape(indented, digits);
    CountedNotCircular("SubA", digits);
    ArrowAssemblyRule(SubLine(indented, digits), "SubA", digits);
  }

  lemma SubLineShape(indented: bool, digits: string)
    requires IsCounter(digits)
    ensures Content(Strip(SubLine(indented, digits))) == SubBody(digits)
    ensures !IsMetadata(Strip(SubLine(indented, digits)))
  {
    var body := SubBody(digits);
    var t := SubText(digits);
    SubTextEnds(digits);
    DigitsOneLine(digits);
    StripPadded(Pad(indented), t);
    BranchLineContent([], body);
    assert [] + [MiddleBranch, BranchDash, ' '] + body == t;
    NotMetadata(t);
  }

  /** A `Bolt` line under a branch bar names the part Bolt one level below the top. */
  lemma ClassifyBoltLine(indented: bool, digits: string)
    requires IsCounter(digits)
    ensures Classify(BoltLine(indented, digits)) == NamedLine(TopLevel(indented) + 1, "Bolt", Part)
  {
    ExtractBoltLine(indented, digits);
    BoltLineLevel(indented, digits);
    ClassifyNamed(BoltLine(indented, digits), |Pad(indented)|, TopLevel(indented) + 1, "Bolt", Part);
  }

  lemma BoltLineLevel(indented: bool, digits: string)
    ensures ComputeLevel(BoltLine(indented, digits)) == TopLevel(indented) + 1
    ensures !IsSpace(BoltLine(indented, digits)[|Pad(indented)|])
  {
    var pad := Pad(indented);
    var bars := [Bar, ' ', ' ', ' '];
    var rest := [MiddleBranch, BranchDash, ' '] + BoltBody(digits);
    assert BoltLine(indented, digits) == (pad + bars) + rest;
    BranchLineLevel(pad + bars, rest);
    assert BoltLine(indented, digits)[|pad|] == Bar;
  }

  lemma SubTextEnds(digits: string)
    ensures SubBody(digits)[0] == 'S' && SubText(digits)[|SubText(digits)| - 1] == 'y'
  {
  }

  lemma ExtractBoltLine(indented: bool, digits: string)
    requires IsCounter(digits)
    ensures ExtractNameAndType(BoltLine(indented, digits)) == (Some("Bolt"), Some(Part))
  {
    BoltLineShape(indented, digits);
    BoltBodyForm(digits);
    BoltWords();
    CountedNotCircular("Bolt", digits);
    AnnotatedPartRule(BoltLine(indented, digits), "Bolt", digits, "Fastener");
  }

  lemma BoltBodyForm(digits: string)
    ensures BoltBody(digits) == "Bolt" + digits + " (" + "Fastener" + ")"
  {
  }

  lemma BoltWords()
    ensures !IsSpace("Bolt"[0]) && !IsSpace("Bolt"[3]) && '\n' !in "Bolt"
    ensures '(' !in "Bolt" && ')' !in "Bolt" && '=' !in "Bolt" && '@' !in "Bolt"
    ensures ')' !in "Fastener" && '=' !in "Fastener" && '@' !in "Fastener"
  {
  }

  lemma BoltLineShape(indented: bool, digits: string)
    requires IsCounter(digits)
    ensures Content(Strip(BoltLine(indented, digits))) == BoltBody(digits)
    ensures !IsMetadata(Strip(BoltLine(indented, digits)))
  {
    var body := BoltBody(digits);
    var t := BoltText(digits);
    assert body[0] == 'B' && t[|t| - 1] == ')' && t[0] == Bar;
    DigitsOneLine(digits);
    StripPadded(Pad(indented), t);
    BranchLineContent([Bar, ' ', ' ', ' '], body);
    NotMetadata(t);
  }

  lemma DigitsOneLine(digits: string)
    requires IsCounter(digits)
    ensures '\n' !in digits
  {
    assert digits == [digits[0], digits[1], digits[2]];
  }

  /** A name that does not start with `C` is no `Circular_` container, whatever
      counter follows it. */
  lemma CountedNotCircular(name: string, digits: string)
    requires name != [] && name[0] != 'C'
    ensures !StartsWith(name + digits, CircularPrefix)
  {
    assert (name + digits)[0] == name[0] != CircularPrefix[0];
  }

  /** The export classifies line by line into the tree above. */
  lemma ClassifyExport(indented: bool)
    ensures ClassifyAll(Export(indented)) == TwoInstances(TopLevel(indented))
  {
    var infos := ClassifyAll(Export(indented));
    forall i | 0 <= i < 6
      ensures infos[i] == TwoInstances(TopLevel(indented))[i]
    {
      ClassifyExportLine(indented, i);
    }
  }

  lemma ClassifyExportLine(indented: bool, i: nat)
    requires i < 6
    ensures Classify(Export(indented)[i]) == TwoInstances(TopLevel(indented))[i]
  {
    var lines := Export(indented);
    var infos := TwoInstances(TopLevel(indented));
    if i == 0 {
      assert lines[0] == RootLine && infos[0] == NamedLine(0, "Root", Assembly);
      ClassifyRootLine();
    } else if i == 1 || i == 4 {
      var digits := if i == 1 then "001" else "002";
      assert lines[i] == SubLine(indented, digits) && infos[i] == NamedLine(TopLevel(indented), "SubA", Assembly);
      ClassifySubLine(indented, digits);
    } else {
      var digits := if i == 2 then "001" else if i == 3 then "002" else "003";
      assert lines[i] == BoltLine(indented, digits) && infos[i] == NamedLine(TopLevel(indented) + 1, "Bolt", Part);
      ClassifyBoltLine(indented, digits);
    }
  }

  lemma FeedExport(indented: bool)
    ensures Feed(Export(indented)) == Run(TwoInstances(TopLevel(indented)))
  {
    ClassifyExport(indented);
  }

  // ---------------- the parse of the indented export ----------------

  /** The trace of the indented tree: after each line, the stack and the three counts
      that change. */
  function TraceStack(k: nat): seq<Frame> {
    if k == 0 then []
    else if k == 1 then [Frame("Root", 0)]
    else [Frame("Root", 0), Frame("SubA", 1)]
  }

  function TraceBolts(k: nat): nat {
    if k <= 2 then 0 else if k <= 4 then k - 2 else k - 3
  }

  function TraceSubA(k: nat): nat {
    if k <= 1 then 0 else if k <= 4 then 1 else 2
  }

  /** The run of a prefix is the run of the shorter prefix and one more step. */
  lemma RunPrefix(infos: seq<LineInfo>, k: nat)
    requires 0 < k <= |infos|
    ensures Run(infos[..k]) == Step(Run(infos[..k - 1]), infos[k - 1])
  {
    assert infos[..k][..k - 1] == infos[..k - 1];
  }

  predicate TraceAt(st: ParseState, k: nat) {
    && st.stack == TraceStack(k)
    && Cell(st.direct, "Root", "SubA") == TraceSubA(k)
    && Cell(st.sub, "Root", "SubA") == TraceSubA(k)
    && Cell(st.direct, "SubA", "Bolt") == TraceBolts(k)
  }

  /** One line of the indented tree moves the trace one step on. */
  lemma TraceStep(st: ParseState, k: nat)
    requires 1 <= k <= 6 && TraceAt(st, k - 1)
    ensures TraceAt(Step(st, TwoInstances(1)[k - 1]), k)
  {
    if k == 1 {
      TraceLine(st, k, NamedLine(0, "Root", Assembly));
    } else if k == 2 || k == 5 {
      TraceLine(st, k, NamedLine(1, "SubA", Assembly));
    } else {
      TraceLine(st, k, NamedLine(2, "Bolt", Part));
    }
  }

  lemma TraceLine(st: ParseState, k: nat, x: LineInfo)
    requires 1 <= k <= 6 && TraceAt(st, k - 1) && x == TwoInstances(1)[k - 1]
    ensures TraceAt(Step(st, x), k)
  {
    TraceLineStack(st, k, x);
    TraceLineCells(st, k, x);
  }

  lemma TraceLineStack(st: ParseState, k: nat, x: LineInfo)
    requires 1 <= k <= 6 && st.stack == TraceStack(k - 1) && x == TwoInstances(1)[k - 1]
    ensures Step(st, x).stack == TraceStack(k)
  {
    AdvanceStack(st, x);
  }

  /** The edge each line of the indented tree adds. */
  function TraceEdge(k: nat): Option<Edge> {
    if k <= 1 then None
    else if k == 2 || k == 5 then Some(Edge("Root", "SubA", Assembly))
    else Some(Edge("SubA", "Bolt", Part))
  }

  lemma TraceLineEdge(st: ParseState, k: nat, x: LineInfo)
    requires 1 <= k <= 6 && st.stack == TraceStack(k - 1) && x == TwoInstances(1)[k - 1]
    ensures EdgeOf(st, x) == TraceEdge(k)
  {
    IndentedPops();
    if k == 1 {
      EdgeUnder(st, x, [], []);
    } else if k == 2 {
      assert x == NamedLine(1, "SubA", Assembly);
      EdgeUnder(st, x, [Frame("Root", 0)], [Frame("Root", 0)]);
    } else if k == 5 {
      assert x == NamedLine(1, "SubA", Assembly);
      EdgeUnder(st, x, TraceStack(4), [Frame("Root", 0)]);
    } else {
      assert x == NamedLine(2, "Bolt", Part);
      EdgeUnder(st, x, TraceStack(k - 1), TraceStack(k - 1));
    }
  }

  /** How the stacks of the indented tree pop. */
  lemma IndentedPops()
    ensures PopTo([], 0) == []
    ensures PopTo([Frame("Root", 0)], 1) == [Frame("Root", 0)]
    ensures PopTo(TraceStack(2), 2) == TraceStack(2)
    ensures PopTo(TraceStack(2), 1) == [Frame("Root", 0)]
  {
    assert TraceStack(2)[..1] == [Frame("Root", 0)];
  }

  /** Popping the stack of `st` to the level of `x` leaves `kept`. */
  lemma EdgeUnder(st: ParseState, x: LineInfo, stack: seq<Frame>, kept: seq<Frame>)
    requires st.stack == stack && PopTo(stack, x.level) == kept
    ensures EdgeOf(st, x) == if !x.blank && x.name.Some? && |kept| > 0 then
              Some(Edge(kept[|kept| - 1].name, x.name.value, if x.kind == Some(Assembly) then Assembly else Part))
            else None
  {
  }

  lemma TraceLineCells(st: ParseState, k: nat, x: LineInfo)
    requires 1 <= k <= 6 && TraceAt(st, k - 1) && x == TwoInstances(1)[k - 1]
    ensures Cell(Step(st, x).direct, "Root", "SubA") == TraceSubA(k)
    ensures Cell(Step(st, x).sub, "Root", "SubA") == TraceSubA(k)
    ensures Cell(Step(st, x).direct, "SubA", "Bolt") == TraceBolts(k)
  {
    TraceLineEdge(st, k, x);
    StepCountsDirect(st, x, "Root", "SubA");
    StepCountsSub(st, x, "Root", "SubA");
    StepCountsDirect(st, x, "SubA", "Bolt");
  }

  lemma {:induction false} IndentedTrace(k: nat)
    requires k <= 6
    ensures TraceAt(Run(TwoInstances(1)[..k]), k)
  {
    var infos := TwoInstances(1);
    if k > 0 {
      IndentedTrace(k - 1);
      RunPrefix(infos, k);
      TraceStep(Run(infos[..k - 1]), k);
    }
  }

  /** With the branches one space in (level 1), Root gets its two SubA, and SubA's direct
      count sums the bolts of both instances: two under SubA001, one under SubA002. */
  lemma IndentedInstances()
    ensures var st := Feed(Export(true));
            && Cell(st.direct, "Root", "SubA") == 2
            && Cell(st.sub, "Root", "SubA") == 2
            && Cell(st.direct, "SubA", "Bolt") == 3
  {
    FeedExport(true);
    IndentedRun();
  }

  lemma IndentedRun()
    ensures TraceAt(Run(TwoInstances(1)), 6)
  {
    IndentedTrace(6);
    assert TwoInstances(1)[..6] == TwoInstances(1);
  }

  // ---------------- the parse of the column-0 export ----------------

  /** With the top-level branches in column 0 (level 0, like the header), each SubA line
      pops Root: Root gets no SubA, while the bolts still land under SubA. */
  lemma ColumnZeroBranches()
    ensures var st := Feed(Export(false));
            && Cell(st.direct, "Root", "SubA") == 0
            && Cell(st.sub, "Root", "SubA") == 0
            && Cell(st.direct, "SubA", "Bolt") == 3
  {
    FeedExport(false);
    ColumnZeroRun();
  }

  lemma ColumnZeroRun()
    ensures ZeroAt(Run(TwoInstances(0)), 6)
  {
    ColumnZeroTrace(6);
    assert TwoInstances(0)[..6] == TwoInstances(0);
  }

  /** The stack after the first `k` lines of the column-0 tree. */
  function ZeroStack(k: nat): seq<Frame> {
    if k == 0 then [] else if k == 1 then [Frame("Root", 0)] else [Frame("SubA", 0)]
  }

  predicate ZeroAt(st: ParseState, k: nat) {
    && st.stack == ZeroStack(k)
    && Cell(st.direct, "Root", "SubA") == 0
    && Cell(st.sub, "Root", "SubA") == 0
    && Cell(st.direct, "SubA", "Bolt") == TraceBolts(k)
  }

  lemma {:induction false} ColumnZeroTrace(k: nat)
    requires k <= 6
    ensures ZeroAt(Run(TwoInstances(0)[..k]), k)
  {
    var infos := TwoInstances(0);
    if k > 0 {
      ColumnZeroTrace(k - 1);
      RunPrefix(infos, k);
      ColumnZeroLine(Run(infos[..k - 1]), k, infos[k - 1]);
    }
  }

  /** Root opens the stack; a level-0 SubA pops whatever is open and finds no parent; a
      level-1 Bolt is SubA's child. */
  lemma ColumnZeroLine(st: ParseState, k: nat, x: LineInfo)
    requires 1 <= k <= 6 && ZeroAt(st, k - 1) && x == TwoInstances(0)[k - 1]
    ensures ZeroAt(Step(st, x), k)
  {
    ZeroLineStack(st, k, x);
    ZeroLineCells(st, k, x);
  }

  lemma ZeroLineStack(st: ParseState, k: nat, x: LineInfo)
    requires 1 <= k <= 6 && st.stack == ZeroStack(k - 1) && x == TwoInstances(0)[k - 1]
    ensures Step(st, x).stack == ZeroStack(k)
  {
    ZeroPops();
    if k == 1 {
      assert x == NamedLine(0, "Root", Assembly) && st.stack == [];
      AdvanceStack(st, x);
    } else if k == 2 || k == 5 {
      assert x == NamedLine(0, "SubA", Assembly) && PopTo(st.stack, 0) == [];
      AdvanceStack(st, x);
    } else {
      assert x == NamedLine(1, "Bolt", Part) && st.stack == [Frame("SubA", 0)];
      AdvanceStack(st, x);
    }
  }

  /** How the stacks of the column-0 tree pop. */
  lemma ZeroPops()
    ensures PopTo([], 0) == []
    ensures PopTo([Frame("Root", 0)], 0) == []
    ensures PopTo([Frame("SubA", 0)], 0) == []
    ensures PopTo([Frame("SubA", 0)], 1) == [Frame("SubA", 0)]
  {
  }

  /** The edge each line of the column-0 tree adds. */
  function ZeroEdge(k: nat): Option<Edge> {
    if k <= 2 || k == 5 then None else Some(Edge("SubA", "Bolt", Part))
  }

  lemma ZeroLineEdge(st: ParseState, k: nat, x: LineInfo)
    requires 1 <= k <= 6 && st.stack == ZeroStack(k - 1) && x == TwoInstances(0)[k - 1]
    ensures EdgeOf(st, x) == ZeroEdge(k)
  {
    ZeroPops();
    if k == 1 {
      EdgeUnder(st, x, [], []);
    } else if k == 2 || k == 5 {
      assert x == NamedLine(0, "SubA", Assembly);
      EdgeUnder(st, x, ZeroStack(k - 1), []);
    } else {
      assert x == NamedLine(1, "Bolt", Part);
      EdgeUnder(st, x, [Frame("SubA", 0)], [Frame("SubA", 0)]);
    }
  }

  lemma ZeroLineCells(st: ParseState, k: nat, x: LineInfo)
    requires 1 <= k <= 6 && ZeroAt(st, k - 1) && x == TwoInstances(0)[k - 1]
    ensures Cell(Step(st, x).direct, "Root", "SubA") == 0
    ensures Cell(Step(st, x).sub, "Root", "SubA") == 0
    ensures Cell(Step(st, x).direct, "SubA", "Bolt") == TraceBolts(k)
  {
    ZeroLineEdge(st, k, x);
    StepCountsDirect(st, x, "Root", "SubA");
    StepCountsSub(st, x, "Root", "SubA");
    StepCountsDirect(st, x, "SubA", "Bolt");
  }
}
