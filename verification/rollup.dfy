/**
 `rollup_parts_for` of `build_rollup_parts_df`: the number of each part inside one
 assembly, counting through its sub-assemblies with their multiplicities. The source
 recurses with no guard; here a rank map that decreases along every sub-assembly edge
 is the witness that the recursion ends.
 */
module Rollup {
  import opened Order
  import opened Counters
  import opened Parser

  /** `assembly_direct_parts[a]`: the direct children of `a` that the final kind registry
      does not call assemblies, with their direct counts. A child first seen as a part and
      later registered as an assembly is dropped here. */
  function DirectParts(t: Tables, a: string): (r: Counter)
    ensures forall k :: k in r <==> k in Row(t.direct, a) && !IsAssembly(t.kinds, k)
    ensures forall k :: Count(r, k) == if IsAssembly(t.kinds, k) then 0 else Cell(t.direct, a, k)
  {
    map k | k in Row(t.direct, a) && !IsAssembly(t.kinds, k) :: Row(t.direct, a)[k]
  }

  function Height(rank: map<string, nat>, a: string): nat {
    if a in rank then rank[a] else 0
  }

  /** `rank` strictly decreases from every assembly to each of its sub-assemblies, so the
      sub-assembly graph has no cycle. */
  ghost predicate Ranked(sub: Table, rank: map<string, nat>) {
    forall a, c :: HasSub(sub, a, c) ==> Height(rank, c) < Height(rank, a)
  }

  /** `c` is listed among the sub-assemblies of `a`. */
  predicate HasSub(sub: Table, a: string, c: string) {
    c in Row(sub, a)
  }

  /** An assembly listed among its own sub-assemblies (as normalisation makes of `A001`
      inside `A002`) has no rank: the source recursion never ends on it. */
  lemma SelfLoopUnranked(sub: Table, rank: map<string, nat>, a: string)
    requires HasSub(sub, a, a)
    ensures !Ranked(sub, rank)
  {
  }

  /** `rollup_parts_for(a)`. Only non-assembly names are ever counted. */
  function RollupPartsFor(t: Tables, rank: map<string, nat>, a: string): (r: Counter)
    requires Ranked(t.sub, rank)
    ensures forall k :: k in r ==> !IsAssembly(t.kinds, k)
    decreases Height(rank, a), 1
  {
    Accumulate(t, rank, a, DirectParts(t, a), SortedSet(Row(t.sub, a).Keys))
  }

  /** The loop over `assembly_children_assemblies[a]`: adds `n` times the rollup of each
      pending sub-assembly to `total`. */
  function Accumulate(t: Tables, rank: map<string, nat>, a: string, total: Counter, pending: seq<string>): (r: Counter)
    requires Ranked(t.sub, rank)
    requires forall i :: 0 <= i < |pending| ==> pending[i] in Row(t.sub, a)
    requires forall k :: k in total ==> !IsAssembly(t.kinds, k)
    ensures forall k :: k in r ==> !IsAssembly(t.kinds, k)
    decreases Height(rank, a), 0, |pending|
  {
    if pending == [] then total
    else
      var s := pending[0];
      assert HasSub(t.sub, a, s);
      Accumulate(t, rank, a, AddScaled(total, RollupPartsFor(t, rank, s), Cell(t.sub, a, s)), pending[1..])
  }

  /** What the listed sub-assemblies of `a` contribute to the count of `k`:
      the sum of `sub[a][s] * rollup(s)[k]`. */
  function SubSum(t: Tables, rank: map<string, nat>, a: string, k: string, listed: seq<string>): nat
    requires Ranked(t.sub, rank)
    decreases |listed|
  {
    if listed == [] then 0
    else Contribution(t, rank, a, k, listed[0]) + SubSum(t, rank, a, k, listed[1..])
  }

  /** `sub[a][s] * rollup(s)[k]`: what the copies of `s` inside `a` add to the count of `k`. */
  function Contribution(t: Tables, rank: map<string, nat>, a: string, k: string, s: string): nat
    requires Ranked(t.sub, rank)
  {
    var n := Cell(t.sub, a, s);
    var c := Count(RollupPartsFor(t, rank, s), k);
    n * c
  }

  lemma {:induction false} AccumulateCounts(t: Tables, rank: map<string, nat>, a: string, total: Counter,
                                            pending: seq<string>, k: string)
    requires Ranked(t.sub, rank)
    requires forall i :: 0 <= i < |pending| ==> pending[i] in Row(t.sub, a)
    requires forall j :: j in total ==> !IsAssembly(t.kinds, j)
    ensures Count(Accumulate(t, rank, a, total, pending), k) == Count(total, k) + SubSum(t, rank, a, k, pending)
    decreases |pending|
  {
    if pending != [] {
      var s := pending[0];
      var next := AddScaled(total, RollupPartsFor(t, rank, s), Cell(t.sub, a, s));
      AccumulateCounts(t, rank, a, next, pending[1..], k);
    }
  }

  /** The rollup recurrence: the count of `k` in `a` is its direct part count plus, over
      the sub-assemblies `s` of `a` in any order, `sub[a][s]` times the count of `k` in `s`. */
  lemma RollupRecurrence(t: Tables, rank: map<string, nat>, a: string, k: string, listed: seq<string>)
    requires Ranked(t.sub, rank)
    requires NoDuplicates(listed) && (forall s :: s in listed <==> s in Row(t.sub, a))
    ensures Count(RollupPartsFor(t, rank, a), k) == Count(DirectParts(t, a), k) + SubSum(t, rank, a, k, listed)
  {
    var sorted := SortedSet(Row(t.sub, a).Keys);
    AccumulateCounts(t, rank, a, DirectParts(t, a), sorted, k);
    AscendingNoDuplicates(sorted);
    SubSumPermutation(t, rank, a, k, sorted, listed);
  }

  predicate NoDuplicates(s: seq<string>) {
    forall i, j :: 0 <= i < j < |s| ==> s[i] != s[j]
  }

  lemma AscendingNoDuplicates(s: seq<string>)
    requires Ascending(s)
    ensures NoDuplicates(s)
  {
    forall i, j | 0 <= i < j < |s|
      ensures s[i] != s[j]
    {
      BelowIrreflexive(s[i]);
    }
  }

  /** Taking one listed sub-assembly out of the sum takes out exactly its term. */
  lemma {:induction false} SubSumRemove(t: Tables, rank: map<string, nat>, a: string, k: string,
                                        listed: seq<string>, j: nat)
    requires Ranked(t.sub, rank) && j < |listed|
    ensures SubSum(t, rank, a, k, listed)
            == Contribution(t, rank, a, k, listed[j]) + SubSum(t, rank, a, k, listed[..j] + listed[j + 1..])
    decreases j
  {
    if j > 0 {
      SubSumRemove(t, rank, a, k, listed[1..], j - 1);
      assert listed[1..][..j - 1] + listed[1..][j..] == (listed[..j] + listed[j + 1..])[1..];
    } else {
      assert listed[..0] + listed[1..] == listed[1..];
    }
  }

  /** The sum does not depend on the order the sub-assemblies are listed in. */
  lemma {:induction false} SubSumPermutation(t: Tables, rank: map<string, nat>, a: string, k: string,
                                             p: seq<string>, q: seq<string>)
    requires Ranked(t.sub, rank)
    requires NoDuplicates(p) && NoDuplicates(q) && forall s :: s in p <==> s in q
    ensures SubSum(t, rank, a, k, p) == SubSum(t, rank, a, k, q)
    decreases |p|
  {
    if p == [] {
      HeadListed(q);
    } else {
      var s := p[0];
      assert s in q;
      var j :| 0 <= j < |q| && q[j] == s;
      var rest := q[..j] + q[j + 1..];
      SubSumRemove(t, rank, a, k, q, j);
      RemovedKeepsOthers(q, j);
      RemovedKeepsOthers(p, 0);
      assert p[..0] + p[1..] == p[1..];
      SubSumPermutation(t, rank, a, k, p[1..], rest);
    }
  }

  lemma HeadListed(q: seq<string>)
    ensures |q| > 0 ==> q[0] in q
  {
  }

  lemma RemovedKeepsOthers(q: seq<string>, j: nat)
    requires NoDuplicates(q) && j < |q|
    ensures var rest := q[..j] + q[j + 1..];
            NoDuplicates(rest) && forall x :: x in rest <==> x in q && x != q[j]
  {
    var rest := q[..j] + q[j + 1..];
    assert forall i :: 0 <= i < |rest| ==> rest[i] == (if i < j then q[i] else q[i + 1]);
    forall x | x in q && x != q[j]
      ensures x in rest
    {
      var i :| 0 <= i < |q| && q[i] == x;
      if i < j {
        assert rest[i] == x;
      } else {
        assert rest[i - 1] == x;
      }
    }
  }

  /** An assembly never holds fewer of a part than it holds directly. */
  lemma RollupCoversDirectParts(t: Tables, rank: map<string, nat>, a: string, k: string)
    requires Ranked(t.sub, rank)
    ensures Count(RollupPartsFor(t, rank, a), k) >= Count(DirectParts(t, a), k)
  {
    AccumulateCounts(t, rank, a, DirectParts(t, a), SortedSet(Row(t.sub, a).Keys), k);
  }

  /** An assembly without sub-assemblies rolls up to exactly its direct parts. */
  lemma RollupOfLeafAssembly(t: Tables, rank: map<string, nat>, a: string)
    requires Ranked(t.sub, rank) && Row(t.sub, a) == map[]
    ensures RollupPartsFor(t, rank, a) == DirectParts(t, a)
  {
    assert Row(t.sub, a).Keys == {};
    assert SortedSet({}) == [];
  }

  /** One kind of sub-assembly held `n` times contributes `n` times its own rollup. */
  lemma RollupSingleSub(t: Tables, rank: map<string, nat>, a: string, s: string, k: string)
    requires Ranked(t.sub, rank) && Row(t.sub, a).Keys == {s}
    ensures Count(RollupPartsFor(t, rank, a), k)
            == Count(DirectParts(t, a), k) + Cell(t.sub, a, s) * Count(RollupPartsFor(t, rank, s), k)
  {
    RollupRecurrence(t, rank, a, k, [s]);
  }

  /** The rank is only a witness: any two ranks give the same rollup. */
  lemma {:induction false} RollupRankIndependent(t: Tables, r1: map<string, nat>, r2: map<string, nat>, a: string)
    requires Ranked(t.sub, r1) && Ranked(t.sub, r2)
    ensures RollupPartsFor(t, r1, a) == RollupPartsFor(t, r2, a)
    decreases Height(r1, a), 1
  {
    AccumulateRankIndependent(t, r1, r2, a, DirectParts(t, a), SortedSet(Row(t.sub, a).Keys));
  }

  lemma {:induction false} AccumulateRankIndependent(t: Tables, r1: map<string, nat>, r2: map<string, nat>,
                                                     a: string, total: Counter, pending: seq<string>)
    requires Ranked(t.sub, r1) && Ranked(t.sub, r2)
    requires forall i :: 0 <= i < |pending| ==> pending[i] in Row(t.sub, a)
    requires forall k :: k in total ==> !IsAssembly(t.kinds, k)
    ensures Accumulate(t, r1, a, total, pending) == Accumulate(t, r2, a, total, pending)
    decreases Height(r1, a), 0, |pending|
  {
    if pending != [] {
      var s := pending[0];
      RollupRankIndependent(t, r1, r2, s);
      AccumulateRankIndependent(t, r1, r2, a, AddScaled(total, RollupPartsFor(t, r1, s), Cell(t.sub, a, s)), pending[1..]);
    }
  }
}
