/**
 Python's `Counter` and `defaultdict(Counter)` as maps: a missing key reads as 0
 (`Counter.get(k, 0)`) and a missing row reads as an empty counter.
 */
module Counters {

  type Counter = map<string, nat>

  type Table = map<string, Counter>

  /** `c.get(k, 0)`. */
  function Count(c: Counter, k: string): nat {
    if k in c then c[k] else 0
  }

  /** `t.get(a, Counter())`. */
  function Row(t: Table, a: string): Counter {
    if a in t then t[a] else map[]
  }

  function Cell(t: Table, a: string, k: string): nat {
    Count(Row(t, a), k)
  }

  /** `t[a][k] += 1` on a `defaultdict(Counter)`: that one cell goes up by one, the row
      and the key are created if missing, and every other cell keeps its value. */
  function Bump(t: Table, a: string, k: string): (r: Table)
    ensures r.Keys == t.Keys + {a}
    ensures Row(r, a).Keys == Row(t, a).Keys + {k}
    ensures forall b :: b != a ==> Row(r, b) == Row(t, b)
    ensures Cell(r, a, k) == Cell(t, a, k) + 1
    ensures forall j :: j != k ==> Cell(r, a, j) == Cell(t, a, j)
  {
    t[a := Row(t, a)[k := Cell(t, a, k) + 1]]
  }

  /** `for it, c in child.items(): total[it] += c * n`: every key of either counter
      ends up present, holding its total count plus `n` times its count in `child`. */
  function AddScaled(total: Counter, child: Counter, n: nat): (r: Counter)
    ensures r.Keys == total.Keys + child.Keys
    ensures forall k :: Count(r, k) == Count(total, k) + n * Count(child, k)
  {
    map k | k in total.Keys + child.Keys :: Count(total, k) + n * Count(child, k)
  }
}
