# CAD assembly matrix generator, modelled in Dafny

`make_assembly_matrix.py` reads a text export of a CAD assembly tree. Each line
is one node, indented with the box-drawing glyphs `├─`, `└─` and `│`. The script
turns the lines into two count tables:

- **DirectChildren**: for every item and every assembly, how many times the item
  appears as a direct child of the assembly.
- **RollupPartsOnly**: for every part and every assembly, how many copies of the
  part the assembly holds, counting through nested sub-assemblies with their
  multiplicities.

This project models the core of that pipeline as pure Dafny functions and proves
what each step promises:

- `Classifier`: the line classifier (`normalize_instance_suffix`,
  `compute_level`, `extract_name_and_type`). It uses `Text`, which models the
  Python string operations involved: `strip` with the `str.isspace` character
  set, `find`, `in`, `split(x)[0]`, `startswith` and `endswith`.
- `Parser`: the `parse_tree` loop, as a left fold over classified lines. The
  state is the stack of open (assembly, level) frames, the kind registry and the
  two counters `direct[parent][child]` and `sub[parent][child]`.
- `ParseFacts`: what the fold computes, stated without the fold:
  - the stack is the list of assembly lines no later line has closed;
  - a line's parent is the innermost of those;
  - the registry holds exactly the names the classifier gave, and a name is an
    assembly exactly when some line called it one.
- `Rollup`: `rollup_parts_for`, with the recurrence
  `rollup(A)[p] = directParts(A)[p] + Σ sub[A][S] · rollup(S)[p]`. This is
  proved for any listing order of the sub-assemblies.
- `Matrices`: the cells and row order of the two sheets.
- `Counters`, `Order`, `Optional`: Python's `Counter`/`defaultdict`, string
  ordering with `sorted`, and an option type.
- `Examples`: worked examples, from normalising `Body003` to parsing the text
  lines of a small export and rolling up two copies of a sub-assembly.

Two behaviours of the code, shown on the export of `Root` holding `SubA001`
(with `Bolt001` and `Bolt002`) and `SubA002` (with `Bolt003`):

- `compute_level` maps a glyph in column 0 to level 0, the level of the root
  header line. When the top-level `├─` glyphs stand in column 0, each top-level
  line pops `Root` off the stack, so `Root` gets no children
  (`Examples.ColumnZeroBranches`). Indented by one space, the same tree gives
  `Root` its two `SubA` (`Examples.IndentedInstances`).
- Counts are kept per normalised name, not per instance. The bolts of both
  instances accumulate in one cell, `direct[SubA][Bolt] = 3`, and
  `direct[Root][SubA] = 2`. The rollup multiplies the one by the other.
  `Examples.RootBolts` shows this on a hand-built table of the same shape, not
  on the parsed export: `Root` holding `SubA` twice rolls up to twice the bolts
  of `SubA`.

## Model

| member | source | states |
|---|---|---|
| Classifier.NormalizeInstanceSuffix | Tools/cad_assembly_matrix_generator/make_assembly_matrix.py:16-20 | The result is the stripped name with either nothing or exactly its last three characters removed. Those three are ASCII digits. They are removed exactly when the stripped name ends in three digits with no line break before them. |
| Classifier.InstanceSuffixRoundTrip | Tools/cad_assembly_matrix_generator/make_assembly_matrix.py:16-20 | Appending a three-digit instance counter to a stripped, single-line name is undone by normalisation. |
| Classifier.NormalizedStartsWith | Tools/cad_assembly_matrix_generator/make_assembly_matrix.py:16-20 | Normalisation only drops characters from the end, so any prefix of its result is a prefix of the stripped name. |
| Examples.NormalizeBody003 | Tools/cad_assembly_matrix_generator/make_assembly_matrix.py:17-20 | `Body003` normalises to `Body`, the example in the function's docstring. |
| Examples.NormalizeBracket007 | Tools/cad_assembly_matrix_generator/make_assembly_matrix.py:16-17 | `Bracket007` normalises to `Bracket`. |
| Examples.NormalizeBracket | Tools/cad_assembly_matrix_generator/make_assembly_matrix.py:16-20 | A name without a digit suffix, `Bracket`, is unchanged. |
| Examples.NormalizeTwice | Tools/cad_assembly_matrix_generator/make_assembly_matrix.py:19-20 | Only the last three digits go: `A001001` becomes `A001`, and normalising again gives `A`. So normalisation is not idempotent. |
| Examples.InstancesCollapse | Tools/cad_assembly_matrix_generator/make_assembly_matrix.py:19-20 | Instances `A001` and `A002` of one item collapse to the single name `A`. |
| Classifier.GlyphIndex | Tools/cad_assembly_matrix_generator/make_assembly_matrix.py:24-27 | The smaller index found for `├` and `└` is the position of the first branch glyph of the line. No glyph occurs before it, and none is found when the line has no glyph. |
| Classifier.LevelOfIndex | Tools/cad_assembly_matrix_generator/make_assembly_matrix.py:28 | `((idx - 1) // 4) + 1` puts index `idx` in the band `4·level - 3 ≤ idx ≤ 4·level`. This holds at index 0 too, where Python's floor division gives level 0. |
| Classifier.ComputeLevel | Tools/cad_assembly_matrix_generator/make_assembly_matrix.py:22-28 | The level is 0 when the line has no branch glyph. Otherwise the first glyph's index lies in the level's band of four columns. |
| Classifier.LevelMonotone | Tools/cad_assembly_matrix_generator/make_assembly_matrix.py:27-28 | A glyph further right never gives a smaller level. |
| Examples.HeaderLevel | Tools/cad_assembly_matrix_generator/make_assembly_matrix.py:24-26 | A header line without glyphs is at level 0. |
| Examples.GlyphLevels | Tools/cad_assembly_matrix_generator/make_assembly_matrix.py:24-28 | A glyph in column 0 gives level 0, and one in column 4 gives level 1. |
| Classifier.ContentAfterFirstBranch | Tools/cad_assembly_matrix_generator/make_assembly_matrix.py:42-43 | On a single-line text, the content is what follows the first glyph-and-dash pair, less its leading whitespace. |
| Classifier.NoBranchContent | Tools/cad_assembly_matrix_generator/make_assembly_matrix.py:42-43 | A line without branch glyphs is its own content. |
| Classifier.BranchLineContent | Tools/cad_assembly_matrix_generator/make_assembly_matrix.py:42-43 | After a glyph-free lead-in, the content of `├─ body` is `body`. |
| Classifier.BranchLineLevel | Tools/cad_assembly_matrix_generator/make_assembly_matrix.py:24-28 | The level of a line is the band of its first glyph's column, whatever follows it. |
| Classifier.NameBefore | Tools/cad_assembly_matrix_generator/make_assembly_matrix.py:47-65 | The name a rule reads off is a prefix of the stripped text before its separator. |
| Classifier.HeaderForm | Tools/cad_assembly_matrix_generator/make_assembly_matrix.py:46-48 | The text `name (Assembly) @...` is a header, and the name read off it is `name`. |
| Classifier.ArrowAssemblyForm | Tools/cad_assembly_matrix_generator/make_assembly_matrix.py:53-60 | The text `name### => Assembly` is no header and its lead is `name###`. It holds `=> Assembly`, and the name read off it is `name` without its counter. |
| Classifier.AnnotatedPartForm | Tools/cad_assembly_matrix_generator/make_assembly_matrix.py:53-68 | The text `name### (note)` is no header and its lead is `name###`. It has no arrow marker and does have both parentheses, and the name read off it is `name`. |
| Classifier.HeaderRule | Tools/cad_assembly_matrix_generator/make_assembly_matrix.py:38-51 | A line whose content has the header form names the assembly `name`. |
| Classifier.ArrowAssemblyRule | Tools/cad_assembly_matrix_generator/make_assembly_matrix.py:38-60 | A line whose content is a counted name and `=> Assembly` names the assembly `name`. |
| Classifier.AnnotatedPartRule | Tools/cad_assembly_matrix_generator/make_assembly_matrix.py:38-68 | A line whose content is a counted name and a parenthesised note names the part `name`. |
| Examples.ClassifyRootLine | Tools/cad_assembly_matrix_generator/make_assembly_matrix.py:81-84 | The header line `Root (Assembly) @ top` is read as the assembly `Root` at level 0. |
| Examples.ClassifySubLine | Tools/cad_assembly_matrix_generator/make_assembly_matrix.py:81-84 | The line `├─ SubA001 => Assembly` is read as the assembly `SubA`, at level 0 in column 0 and level 1 one space in. The same holds for any three-digit counter. |
| Examples.ClassifyBoltLine | Tools/cad_assembly_matrix_generator/make_assembly_matrix.py:81-84 | The line `│   ├─ Bolt001 (Fastener)` is read as the part `Bolt`, one level below the top-level branches. The same holds for any three-digit counter. |
| Examples.ClassifyExport | Tools/cad_assembly_matrix_generator/make_assembly_matrix.py:81-84 | The six lines of the export classify to the root, the two `SubA` instances and the three bolts, at their levels. |
| Classifier.ExtractNameAndType | Tools/cad_assembly_matrix_generator/make_assembly_matrix.py:30-70 | A name is returned exactly when a kind is. Metadata lines give neither. The rules apply in order, and the first that applies decides. A header names the stripped, normalised text before `(Assembly)` as an assembly, or gives nothing when that name starts with `Circular_`. Otherwise a lead starting with `Circular_` gives nothing. Otherwise `=> Assembly` names the text before it as an assembly. Otherwise `=> Body`/`=> Part` names the text before `=>` as a part. Otherwise a `(` with a `)` names the text before `(` as a part. A line with none of these forms gives nothing. |
| Classifier.BlankLineUnnamed | Tools/cad_assembly_matrix_generator/make_assembly_matrix.py:38-70 | A blank line is classified as nothing. |
| Examples.ClassifyMetadata | Tools/cad_assembly_matrix_generator/make_assembly_matrix.py:38-40 | A `... Constraints` folder line gives `(None, None)`. |
| Classifier.LeadBoundary | Tools/cad_assembly_matrix_generator/make_assembly_matrix.py:54 | `content.split("=>")[0].split("(")[0]` is the prefix of the content up to its first `(` or `=>`, or the whole content. |
| Classifier.CutNameNotCircular | Tools/cad_assembly_matrix_generator/make_assembly_matrix.py:53-68 | A name cut from the content at a `(`, at a `=>` or at the end never starts with `Circular_` once the lead check has passed. |
| Classifier.ExtractNeverCircular | Tools/cad_assembly_matrix_generator/make_assembly_matrix.py:45-68 | No name the classifier returns starts with `Circular_`, on any of its return paths. |
| Text.Before | Tools/cad_assembly_matrix_generator/make_assembly_matrix.py:47 | `s.split(x)[0]` is the prefix of `s` before the first occurrence of `x`, or all of `s` when `x` does not occur. |
| Text.Find | Tools/cad_assembly_matrix_generator/make_assembly_matrix.py:24 | `s.find(x)` is the first index where `x` occurs, or none when it never does. |
| Text.StripBounds | Tools/cad_assembly_matrix_generator/make_assembly_matrix.py:81 | A stripped line is empty exactly when the line is all whitespace. Otherwise it starts and ends with non-whitespace. |
| Text.StripIdempotent | Tools/cad_assembly_matrix_generator/make_assembly_matrix.py:18 | Stripping twice is stripping once. |
| Parser.Classify | Tools/cad_assembly_matrix_generator/make_assembly_matrix.py:81-84 | What the loop reads off a line. A line is blank exactly when it is all whitespace, and a blank line carries no name. A non-blank line carries the level `compute_level` gives and the name and kind `extract_name_and_type` gives. |
| Parser.PopTo | Tools/cad_assembly_matrix_generator/make_assembly_matrix.py:86-88 | Popping leaves a prefix of the stack. Every removed frame is at the line's level or deeper. The new top is shallower. On a stack with increasing levels, every kept frame is shallower. |
| Parser.RecordKind | Tools/cad_assembly_matrix_generator/make_assembly_matrix.py:93-98 | Registration adds the name and changes no other entry. The name is an assembly afterwards exactly when it already was one or this occurrence is one. |
| Counters.Bump | Tools/cad_assembly_matrix_generator/make_assembly_matrix.py:103-104 | `t[a][k] += 1` on a `defaultdict(Counter)` raises that one cell by one, creates the row and key if missing, and keeps every other cell. |
| Counters.AddScaled | Tools/cad_assembly_matrix_generator/make_assembly_matrix.py:144-145 | After `total[it] += c * n` over a child counter, every key of either counter is present, holding its total count plus `n` times its child count. |
| Parser.Run | Tools/cad_assembly_matrix_generator/make_assembly_matrix.py:80-110 | After any sequence of lines the parse state is well formed. Stack levels strictly increase and every frame is a registered assembly. Every parent is an assembly and every child is registered. Every sub-assembly child is an assembly, and `sub` never exceeds `direct`. |
| Parser.StepPreservesWellformed | Tools/cad_assembly_matrix_generator/make_assembly_matrix.py:80-110 | One iteration of the loop, including a skipped blank line, keeps the parse invariant. |
| Parser.AdvancePreservesWellformed | Tools/cad_assembly_matrix_generator/make_assembly_matrix.py:83-110 | The body for a non-blank line keeps the parse invariant on all of its paths: unnamed, part, assembly, with or without a parent. |
| Parser.SubAtMostDirect | Tools/cad_assembly_matrix_generator/make_assembly_matrix.py:100-109 | In consistent counters every sub-assembly cell is at most the direct cell, missing cells included. |
| Parser.StepCountsDirect | Tools/cad_assembly_matrix_generator/make_assembly_matrix.py:100-109 | A line adds exactly one to `direct[top][name]` when it is named and has a parent after popping. No other cell changes, and a line without an edge leaves the counter unchanged. |
| Parser.StepCountsSub | Tools/cad_assembly_matrix_generator/make_assembly_matrix.py:100-104 | Only a line whose kind is assembly and that has a parent adds one to `sub[top][name]`, and no other cell changes. |
| Parser.RunCountsEdges | Tools/cad_assembly_matrix_generator/make_assembly_matrix.py:80-110 | The fused loop's two counters equal the counts over the separate list of (parent, child, kind) edges of the lines: all edges for `direct`, assembly edges for `sub`. |
| Parser.ParseTree | Tools/cad_assembly_matrix_generator/make_assembly_matrix.py:74-115 | The returned counters are consistent. `all_assemblies` is strictly ascending and lists exactly the registered assemblies. |
| ParseFacts.PopIsKeep | Tools/cad_assembly_matrix_generator/make_assembly_matrix.py:87-88 | On a stack with increasing levels, popping to a level keeps exactly the frames shallower than it, in order. |
| ParseFacts.StackIsOpenFrames | Tools/cad_assembly_matrix_generator/make_assembly_matrix.py:80-105 | The stack after a run of lines lists its assembly lines not closed by any later non-blank line of the same or a shallower level, in line order. Unnamed lines (metadata folders, `Circular_` containers, lines no rule matches) close too; blank lines do not. |
| ParseFacts.ParentIsInnermostOpen | Tools/cad_assembly_matrix_generator/make_assembly_matrix.py:86-109 | A line adds an edge exactly when it is non-blank and named and leaves some earlier assembly line open. Its parent is the last such line. |
| ParseFacts.KindsOfRun | Tools/cad_assembly_matrix_generator/make_assembly_matrix.py:93-98 | The registry knows exactly the names of the non-blank lines. A name is an assembly exactly when some line called it one, so a later part line never demotes it. |
| ParseFacts.KindsOfLines | Tools/cad_assembly_matrix_generator/make_assembly_matrix.py:81-98 | The registered items are exactly the names the classifier returns for some line. The assemblies among them are exactly the names some line classifies as an assembly. |
| ParseFacts.NoCircularItems | Tools/cad_assembly_matrix_generator/make_assembly_matrix.py:84-98 | The registry never holds a name that starts with `Circular_`. |
| Rollup.DirectParts | Tools/cad_assembly_matrix_generator/make_assembly_matrix.py:134-137 | An assembly's direct parts are its direct children that the final registry does not call assemblies, with their direct counts. A missing one counts 0. |
| Rollup.SelfLoopUnranked | Tools/cad_assembly_matrix_generator/make_assembly_matrix.py:139-146 | An assembly listed among its own sub-assemblies has no rank, so the recursion cannot end on it. |
| Rollup.RollupPartsFor | Tools/cad_assembly_matrix_generator/make_assembly_matrix.py:139-146 | The rollup of an assembly counts only names the final registry does not call assemblies. |
| Rollup.Accumulate | Tools/cad_assembly_matrix_generator/make_assembly_matrix.py:142-145 | The loop over sub-assemblies adds no assembly name to the total. |
| Rollup.AccumulateCounts | Tools/cad_assembly_matrix_generator/make_assembly_matrix.py:141-146 | The loop adds, for each listed sub-assembly `S`, `sub[A][S]` times the count of the part in `S`'s rollup to the starting count. |
| Rollup.RollupRecurrence | Tools/cad_assembly_matrix_generator/make_assembly_matrix.py:140-146 | `rollup(A)[p] = directParts(A)[p] + Σ sub[A][S] · rollup(S)[p]`, over the sub-assemblies of `A` listed in any order without repetition. |
| Rollup.SubSumPermutation | Tools/cad_assembly_matrix_generator/make_assembly_matrix.py:142 | The sum over sub-assemblies does not depend on the order they are listed in. |
| Rollup.RollupCoversDirectParts | Tools/cad_assembly_matrix_generator/make_assembly_matrix.py:141-146 | An assembly never holds fewer of a part than it holds directly. |
| Rollup.RollupOfLeafAssembly | Tools/cad_assembly_matrix_generator/make_assembly_matrix.py:141-146 | An assembly without sub-assemblies rolls up to exactly its direct parts. |
| Rollup.RollupSingleSub | Tools/cad_assembly_matrix_generator/make_assembly_matrix.py:142-145 | An assembly with a single sub-assembly `S`, held `n` times, adds `n` times `S`'s rollup to its direct parts. |
| Rollup.RollupRankIndependent | Tools/cad_assembly_matrix_generator/make_assembly_matrix.py:139-146 | The rank is only a termination witness: any two ranks give the same rollup. |
| Examples.RootBolts | Tools/cad_assembly_matrix_generator/make_assembly_matrix.py:140-146 | A root holding two copies of a sub-assembly rolls up to twice that sub-assembly's bolts. |
| Examples.RootHoldsFourBolts | Tools/cad_assembly_matrix_generator/make_assembly_matrix.py:140-146 | Two sub-assemblies of two bolts each give the root four bolts. |
| Examples.IndentedInstances | Tools/cad_assembly_matrix_generator/make_assembly_matrix.py:80-109 | Fed the text lines of the export with its top-level branches one space in, the loop gives `direct[Root][SubA] = sub[Root][SubA] = 2`. The bolts of both instances accumulate in `direct[SubA][Bolt] = 3`. |
| Examples.ColumnZeroBranches | Tools/cad_assembly_matrix_generator/make_assembly_matrix.py:80-109 | Fed the text lines of the same export with its top-level branches in column 0, each `SubA` line pops the root, so `direct[Root][SubA] = sub[Root][SubA] = 0`. The three bolts still go under `SubA`. |
| Order.BelowTotal | Tools/cad_assembly_matrix_generator/make_assembly_matrix.py:111-114 | Python's string order is total: of two different strings, one is below the other. |
| Order.BelowTransitive | Tools/cad_assembly_matrix_generator/make_assembly_matrix.py:111-114 | Python's string order is transitive. |
| Order.SortedSet | Tools/cad_assembly_matrix_generator/make_assembly_matrix.py:111-114 | `sorted` of a set is strictly ascending and holds exactly the set's elements, each once. |
| Order.SortedSetUnique | Tools/cad_assembly_matrix_generator/make_assembly_matrix.py:111-114 | Any strictly ascending listing of a set's elements is the sorted one. |
| Matrices.KindsSplit | Tools/cad_assembly_matrix_generator/make_assembly_matrix.py:120-129 | Every registered item is an assembly or a part and never both, so the two groups of rows together list every item once. |
| Matrices.DirectCounts | Tools/cad_assembly_matrix_generator/make_assembly_matrix.py:124-125 | A row has one cell per assembly column, holding the direct count, 0 when missing. |
| Matrices.BuildDirectChildren | Tools/cad_assembly_matrix_generator/make_assembly_matrix.py:119-130 | The direct-children sheet has one row per registered item, with its kind. Assemblies come before parts, each group in name order. The columns are `all_assemblies`, and each cell is the direct count, 0 when missing. |
| Matrices.RollupCounts | Tools/cad_assembly_matrix_generator/make_assembly_matrix.py:152-153 | A rollup row has one cell per assembly column, holding the rolled-up count, 0 when missing. |
| Matrices.BuildRollupParts | Tools/cad_assembly_matrix_generator/make_assembly_matrix.py:148-156 | The rollup sheet has one row per registered part, in name order. The columns are `all_assemblies`, and each cell is the rolled-up count of the part, 0 when missing. |
| Matrices.DirectSheetCountsEdges | Tools/cad_assembly_matrix_generator/make_assembly_matrix.py:100-125 | Each cell of the direct-children sheet counts the lines naming the row's item whose innermost open assembly line names the column. |
| Matrices.NoCircularDirectRows | Tools/cad_assembly_matrix_generator/make_assembly_matrix.py:49-56 | No row and no column of the direct-children sheet is a `Circular_` container, on every input. |
| Matrices.NoCircularRollupRows | Tools/cad_assembly_matrix_generator/make_assembly_matrix.py:49-56 | No row and no column of the rolled-up parts sheet is a `Circular_` container. |

## Left out

- `save_ods` and the XLSX fallback (lines 160-193), and `main` (lines 197-216):
  file I/O, command-line handling and printing. The model starts from the list
  of lines and ends at the cells and row order of the two sheets.
- pandas: DataFrame construction, the header row, `fillna(1)` and
  `sort_values`. Each sheet is a sequence of rows whose order is stated
  directly. The label cells `Item` and `Kind` are kept apart from the assembly
  columns, so the model's `fillna` case never arises (see the next two lines).
- `lru_cache` on `rollup_parts_for`: memoisation does not change the value, so
  the rollup is a plain recursive function.
- Rollup.RollupPartsFor: requires a rank that decreases along every
  sub-assembly edge. The source recurses without a guard, and on a cyclic
  sub-assembly graph (a self-loop arises when `A001` holds `A002`) it fails with
  Python's recursion limit. That behaviour is not modelled;
  `Rollup.SelfLoopUnranked` shows which inputs the precondition excludes.
- Rollup.Accumulate: walks the sub-assemblies in name order, while the source
  walks them in first-insertion order. `Rollup.SubSumPermutation` and
  `Rollup.RollupRecurrence` prove that every order gives the same counts.
- Matrices.BuildDirectChildren: keeps the `Item` and `Kind` labels apart from
  the assembly columns. The source puts them in the same row dict (lines
  123-125), so an assembly named `Kind`, `Item` or `_k` collides with them.
  Take the export `Top (Assembly) @ x`, ` ├─ Kind001 => Assembly`,
  `     ├─ Bolt001 (Fastener)`:
  - `row["Kind"]` becomes a count;
  - the map on line 128 gives NaN and `fillna(1)` makes every `_k` 1;
  - the rows then sort by `Item` alone (Bolt, Kind, Top), while the model lists
    Kind and Top before Bolt.
  An assembly named `Item` replaces the item names with counts, and the rows
  sort by those. One named `_k` loses its column to lines 128-129.
- Matrices.BuildRollupParts: keeps the `Item` label apart from the assembly
  columns. In the source an assembly named `Item` overwrites each row's `Item`
  cell with a count (lines 151-153), and line 155 sorts the rows by those
  counts.
- Matrices.BuildDirectChildren: returns a sheet without rows when no item is
  registered. The source raises `KeyError` there instead: `pd.DataFrame([])`
  has no `Kind` column for line 128 to read. An export whose lines all classify
  to nothing, for example only `... Constraints` folders, shows it.
- Matrices.BuildRollupParts: returns a sheet without rows when no part is
  registered. The source raises `KeyError` there instead, because
  `sort_values("Item")` on line 155 finds no `Item` column. An export that is
  only the header line `Root (Assembly) @ top` shows it.
- Classifier.NormalizeInstanceSuffix: treats only ASCII `0`-`9` as digits.
  Python's `\d` also matches other Unicode decimal digits.
- Insertion order of Python dicts and Counters is not modelled. Counters are
  maps, and only their counts reach the tables.
- Python's `\s` in the branch regex and `str.strip()` are both modelled by the
  `str.isspace` character set. The model does not separately check that the
  regex engine's set is the same.
