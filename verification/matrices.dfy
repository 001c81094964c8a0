/**
 `build_direct_children_df` and `build_rollup_parts_df`, as the cells and row order of
 the two sheets: one row per item, one column per assembly of `all_assemblies`, and a
 missing count read as 0.
 */
module Matrices {
  import opened Text
  import opened Order
  import opened Classifier
  import opened Counters
  import opened Parser
  import opened ParseFacts
  import opened Rollup

  /** A row of the direct-children sheet: item, kind, and one count per column. */
  datatype DirectRow = DirectRow(item: string, kind: Kind, counts: seq<nat>)

  /** A row of the rolled-up parts sheet: part and one count per column. */
  datatype PartRow = PartRow(item: string, counts: seq<nat>)

  datatype DirectSheet = DirectSheet(columns: seq<string>, rows: seq<DirectRow>)

  datatype RollupSheet = RollupSheet(columns: seq<string>, rows: seq<PartRow>)

  /** The sort key `_k`: assemblies 0, parts 1. */
  function KindRank(k: Kind): nat {
    if k == Assembly then 0 else 1
  }

  /** `sort_values(["_k", "Item"])`: by kind rank, then by name. */
  predicate RowBefore(x: DirectRow, y: DirectRow) {
    KindRank(x.kind) < KindRank(y.kind) || (KindRank(x.kind) == KindRank(y.kind) && Below(x.item, y.item))
  }

  /** `assembly_children_direct[asm].get(item, 0)` for each column. */
  function DirectCounts(t: Tables, item: string): (r: seq<nat>)
    ensures |r| == |t.assemblies|
    ensures forall j :: 0 <= j < |r| ==> r[j] == Cell(t.direct, t.assemblies[j], item)
  {
    seq(|t.assemblies|, j requires 0 <= j < |t.assemblies| => Cell(t.direct, t.assemblies[j], item))
  }

  function DirectRows(t: Tables, names: seq<string>, kind: Kind): (r: seq<DirectRow>)
    ensures |r| == |names|
    ensures forall i :: 0 <= i < |r| ==> r[i] == DirectRow(names[i], kind, DirectCounts(t, names[i]))
  {
    seq(|names|, i requires 0 <= i < |names| => DirectRow(names[i], kind, DirectCounts(t, names[i])))
  }

  /** The `Item` column of the direct-children sheet. */
  function DirectItems(rows: seq<DirectRow>): (r: seq<string>)
    ensures |r| == |rows| && forall i :: 0 <= i < |rows| ==> r[i] == rows[i].item
  {
    seq(|rows|, i requires 0 <= i < |rows| => rows[i].item)
  }

  /** The `Item` column of the rolled-up parts sheet. */
  function PartItems(rows: seq<PartRow>): (r: seq<string>)
    ensures |r| == |rows| && forall i :: 0 <= i < |rows| ==> r[i] == rows[i].item
  {
    seq(|rows|, i requires 0 <= i < |rows| => rows[i].item)
  }

  /** `build_direct_children_df`: one row per registered item, carrying its registered
      kind, assemblies before parts and each group in name order; the columns are the
      assemblies, and the cell of `asm` in the row of `item` is the direct count of
      `item` under `asm`, 0 when there is none. */
  function BuildDirectChildren(t: Tables): (s: DirectSheet)
    ensures s.columns == t.assemblies
    ensures |s.rows| == |t.kinds|
    ensures forall n :: n in DirectItems(s.rows) <==> n in t.kinds
    ensures forall i :: 0 <= i < |s.rows| ==> s.rows[i].item in t.kinds && s.rows[i].kind == t.kinds[s.rows[i].item]
    ensures forall i, j :: 0 <= i < j < |s.rows| ==> RowBefore(s.rows[i], s.rows[j])
    ensures forall i, j :: 0 <= i < |s.rows| && 0 <= j < |s.columns| ==>
              |s.rows[i].counts| == |s.columns| && s.rows[i].counts[j] == Cell(t.direct, s.columns[j], s.rows[i].item)
  {
    var asms := SortedSet(AssemblyNames(t.kinds));
    var parts := SortedSet(PartNames(t.kinds));
    GroupedRowsListKinds(t, asms, parts);
    GroupedRowsOrdered(t, asms, parts);
    GroupedRowsCells(t, asms, parts);
    DirectSheet(t.assemblies, DirectRows(t, asms, Assembly) + DirectRows(t, parts, Part))
  }

  /** Each row of the grouped list: the assembly rows first, then the part rows. */
  lemma GroupedRowsAt(t: Tables, asms: seq<string>, parts: seq<string>, i: nat)
    requires i < |asms| + |parts|
    ensures var rows := DirectRows(t, asms, Assembly) + DirectRows(t, parts, Part);
            rows[i] == if i < |asms| then DirectRow(asms[i], Assembly, DirectCounts(t, asms[i]))
                       else DirectRow(parts[i - |asms|], Part, DirectCounts(t, parts[i - |asms|]))
  {
  }

  lemma GroupedRowsOrdered(t: Tables, asms: seq<string>, parts: seq<string>)
    requires Ascending(asms) && Ascending(parts)
    ensures var rows := DirectRows(t, asms, Assembly) + DirectRows(t, parts, Part);
            forall i, j :: 0 <= i < j < |rows| ==> RowBefore(rows[i], rows[j])
  {
    var rows := DirectRows(t, asms, Assembly) + DirectRows(t, parts, Part);
    forall i, j | 0 <= i < j < |rows|
      ensures RowBefore(rows[i], rows[j])
    {
      GroupedRowsAt(t, asms, parts, i);
      GroupedRowsAt(t, asms, parts, j);
    }
  }

  lemma GroupedRowsKinds(t: Tables, asms: seq<string>, parts: seq<string>)
    requires forall n :: n in asms ==> IsAssembly(t.kinds, n)
    requires forall n :: n in parts ==> n in t.kinds && t.kinds[n] == Part
    ensures var rows := DirectRows(t, asms, Assembly) + DirectRows(t, parts, Part);
            forall i :: 0 <= i < |rows| ==> rows[i].item in t.kinds && rows[i].kind == t.kinds[rows[i].item]
  {
    var rows := DirectRows(t, asms, Assembly) + DirectRows(t, parts, Part);
    forall i | 0 <= i < |rows|
      ensures rows[i].item in t.kinds && rows[i].kind == t.kinds[rows[i].item]
    {
      GroupedRowsAt(t, asms, parts, i);
      if i < |asms| {
        assert asms[i] in asms;
      } else {
        assert parts[i - |asms|] in parts;
      }
    }
  }

  lemma GroupedRowsCells(t: Tables, asms: seq<string>, parts: seq<string>)
    ensures var rows := DirectRows(t, asms, Assembly) + DirectRows(t, parts, Part);
            forall i, j :: 0 <= i < |rows| && 0 <= j < |t.assemblies| ==>
              |rows[i].counts| == |t.assemblies| && rows[i].counts[j] == Cell(t.direct, t.assemblies[j], rows[i].item)
  {
    var rows := DirectRows(t, asms, Assembly) + DirectRows(t, parts, Part);
    forall i | 0 <= i < |rows|
      ensures rows[i].counts == DirectCounts(t, rows[i].item)
    {
      GroupedRowsAt(t, asms, parts, i);
    }
  }

  /** Listing the assemblies, then the parts, lists every registered item once, each
      with its registered kind. */
  lemma GroupedRowsListKinds(t: Tables, asms: seq<string>, parts: seq<string>)
    requires asms == SortedSet(AssemblyNames(t.kinds)) && parts == SortedSet(PartNames(t.kinds))
    ensures var rows := DirectRows(t, asms, Assembly) + DirectRows(t, parts, Part);
            && |rows| == |t.kinds|
            && (forall n :: n in DirectItems(rows) <==> n in t.kinds)
            && (forall i :: 0 <= i < |rows| ==> rows[i].item in t.kinds && rows[i].kind == t.kinds[rows[i].item])
  {
    KindsSplit(t.kinds);
    GroupedRowsKinds(t, asms, parts);
    GroupedRowsItems(t, asms, parts);
  }

  lemma GroupedRowsItems(t: Tables, asms: seq<string>, parts: seq<string>)
    ensures DirectItems(DirectRows(t, asms, Assembly) + DirectRows(t, parts, Part)) == asms + parts
  {
  }

  /** Every registered item is an assembly or a part, never both. */
  lemma KindsSplit(kinds: map<string, Kind>)
    ensures AssemblyNames(kinds) * PartNames(kinds) == {}
    ensures |kinds| == |AssemblyNames(kinds)| + |PartNames(kinds)|
    ensures forall n :: n in kinds <==> n in AssemblyNames(kinds) || n in PartNames(kinds)
    ensures forall n :: n in AssemblyNames(kinds) ==> IsAssembly(kinds, n)
    ensures forall n :: n in PartNames(kinds) ==> n in kinds && kinds[n] == Part
  {
    var a := AssemblyNames(kinds);
    var p := PartNames(kinds);
    assert kinds.Keys == a + p;
    assert |a + p| == |a| + |p| - |a * p|;
  }

  /** `rollup_parts_for(asm).get(item, 0)` for each column. */
  function RollupCounts(t: Tables, rank: map<string, nat>, item: string): (r: seq<nat>)
    requires Ranked(t.sub, rank)
    ensures |r| == |t.assemblies|
    ensures forall j :: 0 <= j < |r| ==> r[j] == Count(RollupPartsFor(t, rank, t.assemblies[j]), item)
  {
    seq(|t.assemblies|, j requires 0 <= j < |t.assemblies| => Count(RollupPartsFor(t, rank, t.assemblies[j]), item))
  }

  /** `build_rollup_parts_df`: one row per registered part, in name order; the columns are
      the assemblies, and the cell of `asm` in the row of `item` is the rolled-up count
      of `item` in `asm`, 0 when there is none. */
  function BuildRollupParts(t: Tables, rank: map<string, nat>): (s: RollupSheet)
    requires Ranked(t.sub, rank)
    ensures s.columns == t.assemblies
    ensures forall n :: n in PartItems(s.rows) <==> n in t.kinds && t.kinds[n] == Part
    ensures Ascending(PartItems(s.rows))
    ensures forall i, j :: 0 <= i < |s.rows| && 0 <= j < |s.columns| ==>
              |s.rows[i].counts| == |s.columns|
              && s.rows[i].counts[j] == Count(RollupPartsFor(t, rank, s.columns[j]), s.rows[i].item)
  {
    var parts := SortedSet(PartNames(t.kinds));
    var rows := seq(|parts|, i requires 0 <= i < |parts| => PartRow(parts[i], RollupCounts(t, rank, parts[i])));
    assert PartItems(rows) == parts;
    RollupSheet(t.assemblies, rows)
  }

  // ---------------- end to end ----------------

  /** In the direct-children sheet of a BOM text, the cell of `asm` in the row of `item`
      is the number of lines naming `item` whose parent (the innermost open assembly
      line) is `asm`. */
  lemma DirectSheetCountsEdges(lines: seq<string>, i: nat, j: nat)
    requires i < |ParseTree(lines).kinds| && j < |ParseTree(lines).assemblies|
    ensures var s := BuildDirectChildren(ParseTree(lines));
            s.rows[i].counts[j] == DirectCount(Edges(ClassifyAll(lines)), s.columns[j], s.rows[i].item)
  {
    var s := BuildDirectChildren(ParseTree(lines));
    RunCountsEdges(ClassifyAll(lines), s.columns[j], s.rows[i].item);
  }

  /** No row and no column of the direct-children sheet is a `Circular_` reference. This
      holds on every input, cyclic sub-assembly graphs included. */
  lemma NoCircularDirectRows(lines: seq<string>)
    ensures var s := BuildDirectChildren(ParseTree(lines));
            && (forall i :: 0 <= i < |s.rows| ==> !StartsWith(s.rows[i].item, CircularPrefix))
            && (forall j :: 0 <= j < |s.columns| ==> !StartsWith(s.columns[j], CircularPrefix))
  {
    var t := ParseTree(lines);
    NoCircularItems(lines);
    ColumnsRegistered(t);
    DirectRowsRegistered(t);
  }

  /** No row and no column of the rolled-up parts sheet is a `Circular_` reference. */
  lemma NoCircularRollupRows(lines: seq<string>, rank: map<string, nat>)
    requires Ranked(ParseTree(lines).sub, rank)
    ensures var s := BuildRollupParts(ParseTree(lines), rank);
            && (forall i :: 0 <= i < |s.rows| ==> !StartsWith(s.rows[i].item, CircularPrefix))
            && (forall j :: 0 <= j < |s.columns| ==> !StartsWith(s.columns[j], CircularPrefix))
  {
    var t := ParseTree(lines);
    NoCircularItems(lines);
    ColumnsRegistered(t);
    RollupRowsRegistered(t, rank);
  }

  /** Every column of both sheets is a registered item. */
  lemma ColumnsRegistered(t: Tables)
    requires forall n :: n in t.assemblies <==> IsAssembly(t.kinds, n)
    ensures forall j :: 0 <= j < |t.assemblies| ==> t.assemblies[j] in t.kinds
  {
    forall j | 0 <= j < |t.assemblies|
      ensures t.assemblies[j] in t.kinds
    {
      assert t.assemblies[j] in t.assemblies;
    }
  }

  lemma DirectRowsRegistered(t: Tables)
    ensures var s := BuildDirectChildren(t);
            s.columns == t.assemblies && forall i :: 0 <= i < |s.rows| ==> s.rows[i].item in t.kinds
  {
  }

  lemma RollupRowsRegistered(t: Tables, rank: map<string, nat>)
    requires Ranked(t.sub, rank)
    ensures var s := BuildRollupParts(t, rank);
            s.columns == t.assemblies && forall i :: 0 <= i < |s.rows| ==> s.rows[i].item in t.kinds
  {
    var s := BuildRollupParts(t, rank);
    forall i | 0 <= i < |s.rows|
      ensures s.rows[i].item in t.kinds
    {
      assert PartItems(s.rows)[i] == s.rows[i].item;
    }
  }
}
