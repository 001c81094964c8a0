/**
 What the fold of `parse_tree` computes, stated without the fold: the stack after a run
 of lines is the list of assembly lines no later line has closed, a line's parent is the
 top of that list once the line itself has closed what it closes, and the kind registry
 holds exactly the names some line gave.
 */
module ParseFacts {
  import opened Optional
  import opened Text
  import opened Classifier
  import opened Parser

  /** A line that pushes a frame: a non-blank line naming an assembly. */
  predicate Opens(x: LineInfo) {
    !x.blank && x.name.Some? && x.kind == Some(Assembly)
  }

  /** A line closes every open assembly at its own level or deeper. */
  predicate Closes(x: LineInfo, level: nat) {
    !x.blank && x.level <= level
  }

  /** Line `j` opened an assembly that no later line of the run has closed. */
  predicate StillOpen(infos: seq<LineInfo>, j: nat) {
    j < |infos| && Opens(infos[j])
    && forall k :: j < k < |infos| ==> !Closes(infos[k], infos[j].level)
  }

  function FrameOf(x: LineInfo): Frame
    requires x.name.Some?
  {
    Frame(x.name.value, x.level)
  }

  /** The frames of the still-open lines among the first `n`, in line order. */
  function OpenBelow(infos: seq<LineInfo>, n: nat): seq<Frame>
    requires n <= |infos|
  {
    if n == 0 then []
    else OpenBelow(infos, n - 1) + (if StillOpen(infos, n - 1) then [FrameOf(infos[n - 1])] else [])
  }

  function OpenFrames(infos: seq<LineInfo>): seq<Frame> {
    OpenBelow(infos, |infos|)
  }

  /** The frames below a level, in order. */
  function Keep(frames: seq<Frame>, level: nat): seq<Frame> {
    if frames == [] then []
    else
      var last := frames[|frames| - 1];
      Keep(frames[..|frames| - 1], level) + (if last.level < level then [last] else [])
  }

  lemma {:induction false} KeepAll(frames: seq<Frame>, level: nat)
    requires forall i :: 0 <= i < |frames| ==> frames[i].level < level
    ensures Keep(frames, level) == frames
    decreases |frames|
  {
    if frames != [] {
      KeepAll(frames[..|frames| - 1], level);
    }
  }

  /** On a stack whose levels increase, popping down to a level keeps exactly the frames below it. */
  lemma {:induction false} PopIsKeep(stack: seq<Frame>, level: nat)
    requires LevelsIncrease(stack)
    ensures PopTo(stack, level) == Keep(stack, level)
    decreases |stack|
  {
    if stack != [] {
      var init := stack[..|stack| - 1];
      assert LevelsIncrease(init);
      if stack[|stack| - 1].level >= level {
        PopIsKeep(init, level);
      } else {
        KeepAll(stack, level);
      }
    }
  }

  /** A blank line closes nothing and opens nothing. */
  lemma {:induction false} BlankKeepsOpen(infos: seq<LineInfo>, x: LineInfo, n: nat)
    requires x.blank && n <= |infos|
    ensures OpenBelow(infos + [x], n) == OpenBelow(infos, n)
    decreases n
  {
    if n > 0 {
      BlankKeepsOpen(infos, x, n - 1);
      var ext := infos + [x];
      assert ext[n - 1] == infos[n - 1];
      assert StillOpen(ext, n - 1) == StillOpen(infos, n - 1) by {
        assert forall k :: n - 1 < k < |infos| ==> ext[k] == infos[k];
      }
    }
  }

  /** A non-blank line closes exactly the open lines at its level or deeper. */
  lemma {:induction false} LineClosesOpen(infos: seq<LineInfo>, x: LineInfo, n: nat)
    requires !x.blank && n <= |infos|
    ensures OpenBelow(infos + [x], n) == Keep(OpenBelow(infos, n), x.level)
    decreases n
  {
    if n > 0 {
      LineClosesOpen(infos, x, n - 1);
      var ext := infos + [x];
      var j := n - 1;
      assert ext[j] == infos[j];
      assert StillOpen(ext, j) <==> StillOpen(infos, j) && infos[j].level < x.level by {
        assert forall k :: j < k < |infos| ==> ext[k] == infos[k];
        assert ext[|infos|] == x;
      }
      var prefix := OpenBelow(infos, j);
      var added := if StillOpen(infos, j) then [FrameOf(infos[j])] else [];
      KeepAppend(prefix, added, x.level);
    }
  }

  lemma KeepAppend(a: seq<Frame>, b: seq<Frame>, level: nat)
    requires |b| <= 1
    ensures Keep(a + b, level) == Keep(a, level) + Keep(b, level)
  {
    if b != [] {
      assert (a + b)[..|a + b| - 1] == a;
      assert b[..0] == [];
    } else {
      assert a + b == a;
    }
  }

  /** The last line of a run is still open exactly when it opens an assembly. */
  lemma OpenLast(infos: seq<LineInfo>, x: LineInfo)
    ensures OpenFrames(infos + [x])
            == OpenBelow(infos + [x], |infos|) + (if Opens(x) then [FrameOf(x)] else [])
  {
    assert (infos + [x])[|infos|] == x;
  }

  /** The stack after a run is the list of its still-open assembly lines, in line order. */
  lemma {:induction false} StackIsOpenFrames(infos: seq<LineInfo>)
    ensures Run(infos).stack == OpenFrames(infos)
    decreases |infos|
  {
    if infos != [] {
      var init := infos[..|infos| - 1];
      var x := infos[|infos| - 1];
      assert infos == init + [x];
      StackIsOpenFrames(init);
      OpenLast(init, x);
      if x.blank {
        BlankKeepsOpen(init, x, |init|);
      } else {
        LineClosesOpen(init, x, |init|);
        PopIsKeep(Run(init).stack, x.level);
        AdvanceStack(Run(init), x);
      }
    }
  }

  /** The stack a non-blank line leaves: popped to its level, then its own frame if it opens one. */
  lemma AdvanceStack(st: ParseState, x: LineInfo)
    requires !x.blank
    ensures Step(st, x).stack == PopTo(st.stack, x.level) + (if Opens(x) then [FrameOf(x)] else [])
  {
  }

  /** A line's parent is the innermost assembly line it leaves open: the line adds an edge
      exactly when it is non-blank, named, and leaves some earlier assembly line open, and
      the edge's parent is the last of those. */
  lemma ParentIsInnermostOpen(infos: seq<LineInfo>, x: LineInfo)
    ensures var open := OpenBelow(infos + [x], |infos|);
            && (EdgeOf(Run(infos), x).Some? <==> !x.blank && x.name.Some? && open != [])
            && (EdgeOf(Run(infos), x).Some? ==> EdgeOf(Run(infos), x).value.parent == open[|open| - 1].name)
  {
    StackIsOpenFrames(infos);
    if !x.blank {
      LineClosesOpen(infos, x, |infos|);
      PopIsKeep(Run(infos).stack, x.level);
    }
  }

  // ---------------- the kind registry ----------------

  /** Some non-blank line of the run names `n`. */
  predicate Named(infos: seq<LineInfo>, n: string) {
    exists i :: 0 <= i < |infos| && !infos[i].blank && infos[i].name == Some(n)
  }

  /** Some non-blank line of the run names `n` as an assembly. */
  predicate NamedAssembly(infos: seq<LineInfo>, n: string) {
    exists i :: 0 <= i < |infos| && !infos[i].blank && infos[i].name == Some(n) && infos[i].kind == Some(Assembly)
  }

  /** The registry knows exactly the names the lines gave, and an item is an assembly
      exactly when at least one of its lines called it one: assembly is sticky and a
      later part line never demotes it. */
  lemma {:induction false} KindsOfRun(infos: seq<LineInfo>, n: string)
    ensures n in Run(infos).kinds <==> Named(infos, n)
    ensures IsAssembly(Run(infos).kinds, n) <==> NamedAssembly(infos, n)
    decreases |infos|
  {
    if infos != [] {
      var init := infos[..|infos| - 1];
      var x := infos[|infos| - 1];
      KindsOfRun(init, n);
      StepKinds(Run(init), x, n);
      NamedSnoc(init, x, n);
      assert infos == init + [x];
    }
  }

  lemma StepKinds(st: ParseState, x: LineInfo, n: string)
    ensures var named := !x.blank && x.name == Some(n);
            && (n in Step(st, x).kinds <==> n in st.kinds || named)
            && (IsAssembly(Step(st, x).kinds, n) <==> IsAssembly(st.kinds, n) || (named && x.kind == Some(Assembly)))
  {
  }

  lemma NamedSnoc(infos: seq<LineInfo>, x: LineInfo, n: string)
    ensures Named(infos + [x], n) <==> Named(infos, n) || (!x.blank && x.name == Some(n))
    ensures NamedAssembly(infos + [x], n)
            <==> NamedAssembly(infos, n) || (!x.blank && x.name == Some(n) && x.kind == Some(Assembly))
  {
    var ext := infos + [x];
    assert ext[|infos|] == x;
    assert forall i :: 0 <= i < |infos| ==> ext[i] == infos[i];
  }

  // ---------------- back to the lines ----------------

  /** The items `parse_tree` registers are exactly the names its classifier returns for
      some line, and the assemblies among them are exactly the names some line
      classifies as an assembly. */
  lemma KindsOfLines(lines: seq<string>, n: string)
    ensures n in ParseTree(lines).kinds
            <==> exists i :: 0 <= i < |lines| && ExtractNameAndType(lines[i]).0 == Some(n)
    ensures IsAssembly(ParseTree(lines).kinds, n)
            <==> exists i :: 0 <= i < |lines| && ExtractNameAndType(lines[i]) == (Some(n), Some(Assembly))
  {
    var infos := ClassifyAll(lines);
    KindsOfRun(infos, n);
    forall i | 0 <= i < |lines|
      ensures (!infos[i].blank && infos[i].name == Some(n)) <==> ExtractNameAndType(lines[i]).0 == Some(n)
      ensures (!infos[i].blank && infos[i].name == Some(n) && infos[i].kind == Some(Assembly))
              <==> ExtractNameAndType(lines[i]) == (Some(n), Some(Assembly))
    {
      if Strip(lines[i]) == [] {
        BlankLineUnnamed(lines[i]);
      }
    }
  }

  /** `parse_tree` never registers an item whose name starts with `Circular_`. */
  lemma NoCircularItems(lines: seq<string>)
    ensures forall n :: n in ParseTree(lines).kinds ==> !StartsWith(n, CircularPrefix)
  {
    forall n | n in ParseTree(lines).kinds
      ensures !StartsWith(n, CircularPrefix)
    {
      KindsOfLines(lines, n);
      var i :| 0 <= i < |lines| && ExtractNameAndType(lines[i]).0 == Some(n);
      ExtractNeverCircular(lines[i]);
    }
  }
}
