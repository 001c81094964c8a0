/**
 `parse_tree` of make_assembly_matrix.py: a left fold over the lines of the export
 that keeps a stack of (assembly, level) frames, a kind registry and two counters,
 `direct[parent][child]` and `sub[parent][child]`.
 */
module Parser {
  import opened Optional
  import opened Text
  import opened Order
  import opened Classifier
  import opened Counters

  datatype Frame = Frame(name: string, level: nat)

  datatype ParseState = ParseState(
    stack: seq<Frame>,
    kinds: map<string, Kind>,
    direct: Table,
    sub: Table)

  /** What `parse_tree` returns: the two counters, the kind registry and the sorted
      list of assembly names. */
  datatype Tables = Tables(
    direct: Table,
    sub: Table,
    kinds: map<string, Kind>,
    assemblies: seq<string>)

  /** One parent/child occurrence, with the kind the child's line gave it. */
  datatype Edge = Edge(parent: string, child: string, kind: Kind)

  const Initial: ParseState := ParseState([], map[], map[], map[])

  predicate IsAssembly(kinds: map<string, Kind>, n: string) {
    n in kinds && kinds[n] == Assembly
  }

  function AssemblyNames(kinds: map<string, Kind>): set<string> {
    set n | n in kinds && kinds[n] == Assembly
  }

  function PartNames(kinds: map<string, Kind>): set<string> {
    set n | n in kinds && kinds[n] == Part
  }

  predicate LevelsIncrease(stack: seq<Frame>) {
    forall i, j :: 0 <= i < j < |stack| ==> stack[i].level < stack[j].level
  }

  /** The facts about the counters that hold after every line: parents are assemblies,
      every child is a known item, sub-assembly children are assemblies, and a
      sub-assembly count never exceeds the direct count of the same cell. */
  predicate Consistent(direct: Table, sub: Table, kinds: map<string, Kind>) {
    && (forall a :: a in direct ==> IsAssembly(kinds, a))
    && (forall a :: a in sub ==> a in direct)
    && (forall a, c :: a in direct && c in direct[a] ==> c in kinds)
    && (forall a, c :: a in sub && c in sub[a] ==> IsAssembly(kinds, c))
    && (forall a, c :: a in sub && c in sub[a] ==> sub[a][c] <= Cell(direct, a, c))
  }

  /** Consistent counters satisfy `sub <= direct` cell by cell, including missing cells. */
  lemma SubAtMostDirect(direct: Table, sub: Table, kinds: map<string, Kind>, a: string, c: string)
    requires Consistent(direct, sub, kinds)
    ensures Cell(sub, a, c) <= Cell(direct, a, c)
  {
  }

  /** The parse invariant: stack levels strictly increase from bottom to top, every
      frame names an assembly, and the counters are consistent. */
  predicate Wellformed(st: ParseState) {
    && LevelsIncrease(st.stack)
    && (forall i :: 0 <= i < |st.stack| ==> IsAssembly(st.kinds, st.stack[i].name))
    && Consistent(st.direct, st.sub, st.kinds)
  }

  /** `while stack and stack[-1][1] >= lvl: stack.pop()`: the result is a prefix of the
      stack, every frame removed has level at least `level`, the new top (if any) is
      below `level`, and on a stack with increasing levels every kept frame is below it. */
  function PopTo(stack: seq<Frame>, level: nat): (r: seq<Frame>)
    ensures |r| <= |stack| && r == stack[..|r|]
    ensures forall i :: |r| <= i < |stack| ==> stack[i].level >= level
    ensures r != [] ==> r[|r| - 1].level < level
    ensures LevelsIncrease(stack) ==> forall i :: 0 <= i < |r| ==> r[i].level < level
    decreases |stack|
  {
    if |stack| > 0 && stack[|stack| - 1].level >= level then
      PopTo(stack[..|stack| - 1], level)
    else
      stack
  }

  /** Kind registration, sticky toward assembly: the name becomes known, no other entry
      changes, and the name is an assembly afterwards exactly when this occurrence is
      one or it already was one. */
  function RecordKind(kinds: map<string, Kind>, name: string, kind: Option<Kind>): (r: map<string, Kind>)
    ensures r.Keys == kinds.Keys + {name}
    ensures forall m :: m in kinds && m != name ==> r[m] == kinds[m]
    ensures IsAssembly(r, name) <==> kind == Some(Assembly) || IsAssembly(kinds, name)
  {
    if name in kinds then
      if kinds[name] != Assembly && kind == Some(Assembly) then kinds[name := Assembly] else kinds
    else
      kinds[name := if kind.Some? then kind.value else Part]
  }

  /** What the loop of `parse_tree` reads off one line before touching its state: whether
      the line is blank, its level, and its classification. */
  datatype LineInfo = LineInfo(blank: bool, level: nat, name: Option<string>, kind: Option<Kind>)

  function Classify(line: string): (info: LineInfo)
    ensures info.name.Some? <==> info.kind.Some?
    ensures info.blank <==> forall i :: 0 <= i < |line| ==> IsSpace(line[i])
    ensures info.blank ==> info.name.None?
    ensures !info.blank ==> info.level == ComputeLevel(line) && (info.name, info.kind) == ExtractNameAndType(line)
  {
    StripBounds(line);
    if Strip(line) == [] then
      BlankLineUnnamed(line);
      LineInfo(true, 0, None, None)
    else
      var classified := ExtractNameAndType(line);
      LineInfo(false, ComputeLevel(line), classified.0, classified.1)
  }

  function ClassifyAll(lines: seq<string>): (infos: seq<LineInfo>)
    ensures |infos| == |lines|
    ensures forall i :: 0 <= i < |lines| ==> infos[i] == Classify(lines[i])
  {
    seq(|lines|, i requires 0 <= i < |lines| => Classify(lines[i]))
  }

  /** One iteration of the loop of `parse_tree`. Blank lines are skipped before the stack
      is popped; unnamed lines are skipped after it. */
  function Step(st: ParseState, info: LineInfo): ParseState {
    if info.blank then st else Advance(st, info.level, info.name, info.kind)
  }

  /** The loop body for a non-blank line of the given level and classification. */
  function Advance(st: ParseState, level: nat, name: Option<string>, kind: Option<Kind>): ParseState {
    var stack := PopTo(st.stack, level);
    if name.None? then st.(stack := stack)
    else
      var kinds := RecordKind(st.kinds, name.value, kind);
      if kind == Some(Assembly) then
        var pushed := stack + [Frame(name.value, level)];
        if |stack| > 0 then
          var parent := stack[|stack| - 1].name;
          ParseState(pushed, kinds, Bump(st.direct, parent, name.value), Bump(st.sub, parent, name.value))
        else
          ParseState(pushed, kinds, st.direct, st.sub)
      else if |stack| > 0 then
        ParseState(stack, kinds, Bump(st.direct, stack[|stack| - 1].name, name.value), st.sub)
      else
        ParseState(stack, kinds, st.direct, st.sub)
  }

  /** The parse state after the given classified lines, left to right. */
  function Run(infos: seq<LineInfo>): (st: ParseState)
    ensures Wellformed(st)
    decreases |infos|
  {
    if infos == [] then Initial
    else
      var prev := Run(infos[..|infos| - 1]);
      StepPreservesWellformed(prev, infos[|infos| - 1]);
      Step(prev, infos[|infos| - 1])
  }

  /** The parse state after the given lines. */
  function Feed(lines: seq<string>): ParseState {
    Run(ClassifyAll(lines))
  }

  /** `parse_tree(lines)`. `all_assemblies` is the sorted union of the parents in `direct`
      and the names registered as assemblies; it lists exactly the registered assemblies. */
  function ParseTree(lines: seq<string>): (t: Tables)
    ensures Consistent(t.direct, t.sub, t.kinds)
    ensures Ascending(t.assemblies)
    ensures forall n :: n in t.assemblies <==> IsAssembly(t.kinds, n)
  {
    var st := Feed(lines);
    Tables(st.direct, st.sub, st.kinds, SortedSet(st.direct.Keys + AssemblyNames(st.kinds)))
  }

  /** Every line keeps the parse invariant. */
  lemma StepPreservesWellformed(st: ParseState, info: LineInfo)
    requires Wellformed(st)
    ensures Wellformed(Step(st, info))
  {
    if !info.blank {
      AdvancePreservesWellformed(st, info.level, info.name, info.kind);
    }
  }

  lemma AdvancePreservesWellformed(st: ParseState, level: nat, name: Option<string>, kind: Option<Kind>)
    requires Wellformed(st)
    ensures Wellformed(Advance(st, level, name, kind))
  {
    var r := Advance(st, level, name, kind);
    var stack := PopTo(st.stack, level);
    PoppedFramesOk(st.stack, st.kinds, level);
    if name.Some? {
      var n := name.value;
      var kinds := RecordKind(st.kinds, n, kind);
      assert r.kinds == kinds;
      ConsistentWiderKinds(st.direct, st.sub, st.kinds, kinds);
      StackWiderKinds(stack, st.kinds, kinds);
      if |stack| > 0 {
        var parent := stack[|stack| - 1].name;
        if kind == Some(Assembly) {
          assert r.direct == Bump(st.direct, parent, n) && r.sub == Bump(st.sub, parent, n);
          ConsistentBumpBoth(st.direct, st.sub, kinds, parent, n);
        } else {
          assert r.direct == Bump(st.direct, parent, n) && r.sub == st.sub;
          ConsistentBumpDirect(st.direct, st.sub, kinds, parent, n);
        }
      }
      if kind == Some(Assembly) {
        assert r.stack == stack + [Frame(n, level)];
        PushOk(stack, kinds, Frame(n, level));
      } else {
        assert r.stack == stack;
      }
    }
  }

  predicate StackOk(stack: seq<Frame>, kinds: map<string, Kind>) {
    LevelsIncrease(stack) && forall i :: 0 <= i < |stack| ==> IsAssembly(kinds, stack[i].name)
  }

  lemma PoppedFramesOk(stack: seq<Frame>, kinds: map<string, Kind>, level: nat)
    requires StackOk(stack, kinds)
    ensures StackOk(PopTo(stack, level), kinds)
  {
    var r := PopTo(stack, level);
    assert forall i :: 0 <= i < |r| ==> r[i] == stack[i];
  }

  lemma StackWiderKinds(stack: seq<Frame>, kinds: map<string, Kind>, wider: map<string, Kind>)
    requires StackOk(stack, kinds)
    requires forall n :: IsAssembly(kinds, n) ==> IsAssembly(wider, n)
    ensures StackOk(stack, wider)
  {
  }

  lemma PushOk(stack: seq<Frame>, kinds: map<string, Kind>, f: Frame)
    requires StackOk(stack, kinds) && IsAssembly(kinds, f.name)
    requires forall i :: 0 <= i < |stack| ==> stack[i].level < f.level
    ensures StackOk(stack + [f], kinds)
  {
    var pushed := stack + [f];
    assert forall i :: 0 <= i < |stack| ==> pushed[i] == stack[i];
  }

  /** Registering more names, without demoting any assembly, keeps the counters consistent. */
  lemma ConsistentWiderKinds(direct: Table, sub: Table, kinds: map<string, Kind>, wider: map<string, Kind>)
    requires Consistent(direct, sub, kinds)
    requires kinds.Keys <= wider.Keys
    requires forall n :: IsAssembly(kinds, n) ==> IsAssembly(wider, n)
    ensures Consistent(direct, sub, wider)
  {
  }

  lemma ConsistentBumpDirect(direct: Table, sub: Table, kinds: map<string, Kind>, parent: string, child: string)
    requires Consistent(direct, sub, kinds)
    requires IsAssembly(kinds, parent) && child in kinds
    ensures Consistent(Bump(direct, parent, child), sub, kinds)
  {
    var d := Bump(direct, parent, child);
    forall a, c | a in sub && c in sub[a]
      ensures sub[a][c] <= Cell(d, a, c)
    {
      assert Cell(sub, a, c) == sub[a][c];
    }
  }

  lemma ConsistentBumpBoth(direct: Table, sub: Table, kinds: map<string, Kind>, parent: string, child: string)
    requires Consistent(direct, sub, kinds)
    requires IsAssembly(kinds, parent) && IsAssembly(kinds, child)
    ensures Consistent(Bump(direct, parent, child), Bump(sub, parent, child), kinds)
  {
    var d := Bump(direct, parent, child);
    var u := Bump(sub, parent, child);
    forall a, c | a in u && c in u[a]
      ensures u[a][c] <= Cell(d, a, c)
    {
      assert Cell(u, a, c) == u[a][c];
      SubAtMostDirect(direct, sub, kinds, a, c);
    }
  }

  // ---------------- the two phases: edges, then counts ----------------

  /** The edge a line adds given the state before it: a named, non-blank line under a
      non-empty stack (after popping) is a child of the frame on top. */
  function EdgeOf(st: ParseState, info: LineInfo): Option<Edge> {
    var stack := PopTo(st.stack, info.level);
    if !info.blank && info.name.Some? && |stack| > 0 then
      Some(Edge(stack[|stack| - 1].name, info.name.value,
                if info.kind == Some(Assembly) then Assembly else Part))
    else None
  }

  /** The edge list of a run, in line order. */
  function Edges(infos: seq<LineInfo>): seq<Edge>
    decreases |infos|
  {
    if infos == [] then []
    else
      var init := infos[..|infos| - 1];
      Extend(Edges(init), EdgeOf(Run(init), infos[|infos| - 1]))
  }

  function Extend(edges: seq<Edge>, added: Option<Edge>): seq<Edge> {
    match added
    case Some(e) => edges + [e]
    case None => edges
  }

  /** The number of edges from `parent` to `child`. */
  function DirectCount(edges: seq<Edge>, parent: string, child: string): nat
    decreases |edges|
  {
    if edges == [] then 0
    else DirectCount(edges[..|edges| - 1], parent, child) + DirectDelta(Some(edges[|edges| - 1]), parent, child)
  }

  /** The number of edges from `parent` to `child` whose line gave an assembly. */
  function SubCount(edges: seq<Edge>, parent: string, child: string): nat
    decreases |edges|
  {
    if edges == [] then 0
    else SubCount(edges[..|edges| - 1], parent, child) + SubDelta(Some(edges[|edges| - 1]), parent, child)
  }

  /** What an optional edge adds to the `direct[parent][child]` count. */
  function DirectDelta(added: Option<Edge>, parent: string, child: string): nat {
    if added.Some? && added.value.parent == parent && added.value.child == child then 1 else 0
  }

  /** What an optional edge adds to the `sub[parent][child]` count. */
  function SubDelta(added: Option<Edge>, parent: string, child: string): nat {
    if added.Some? && added.value.parent == parent && added.value.child == child
       && added.value.kind == Assembly then 1 else 0
  }

  /** A line adds one to `direct[top][name]`, where `top` is the frame left on top after
      popping; every other cell keeps its value, and a line that adds no edge (blank,
      unnamed, or under an empty stack) leaves the counter as it was. */
  lemma StepCountsDirect(st: ParseState, info: LineInfo, parent: string, child: string)
    ensures Cell(Step(st, info).direct, parent, child)
            == Cell(st.direct, parent, child) + DirectDelta(EdgeOf(st, info), parent, child)
  {
  }

  /** A line whose own kind is assembly adds one to `sub[top][name]`; no other line and
      no other cell changes the sub-assembly counter. */
  lemma StepCountsSub(st: ParseState, info: LineInfo, parent: string, child: string)
    ensures Cell(Step(st, info).sub, parent, child)
            == Cell(st.sub, parent, child) + SubDelta(EdgeOf(st, info), parent, child)
  {
  }

  lemma CountsOfExtend(edges: seq<Edge>, added: Option<Edge>, parent: string, child: string)
    ensures DirectCount(Extend(edges, added), parent, child)
            == DirectCount(edges, parent, child) + DirectDelta(added, parent, child)
    ensures SubCount(Extend(edges, added), parent, child)
            == SubCount(edges, parent, child) + SubDelta(added, parent, child)
  {
    if added.Some? {
      assert (edges + [added.value])[..|edges|] == edges;
    }
  }

  /** Counting the edges of a run gives the two counters of the fused loop. */
  lemma {:induction false} RunCountsEdges(infos: seq<LineInfo>, parent: string, child: string)
    ensures Cell(Run(infos).direct, parent, child) == DirectCount(Edges(infos), parent, child)
    ensures Cell(Run(infos).sub, parent, child) == SubCount(Edges(infos), parent, child)
    decreases |infos|
  {
    if infos != [] {
      var init := infos[..|infos| - 1];
      var last := infos[|infos| - 1];
      RunCountsEdges(init, parent, child);
      StepCountsDirect(Run(init), last, parent, child);
      StepCountsSub(Run(init), last, parent, child);
      CountsOfExtend(Edges(init), EdgeOf(Run(init), last), parent, child);
    }
  }
}
