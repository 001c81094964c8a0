/**
 Python's ordering of `str` values (lexicographic by code point) and `sorted` over a
 set of names, used for the row and column order of both output tables.
 */
module Order {

  /** Python's `a < b` on strings. */
  predicate Below(a: string, b: string)
    decreases |a|
  {
    if |a| == 0 then |b| > 0
    else if |b| == 0 then false
    else if a[0] == b[0] then Below(a[1..], b[1..])
    else a[0] < b[0]
  }

  lemma {:induction false} BelowIrreflexive(a: string)
    ensures !Below(a, a)
    decreases |a|
  {
    if |a| > 0 {
      BelowIrreflexive(a[1..]);
    }
  }

  lemma {:induction false} BelowTransitive(a: string, b: string, c: string)
    requires Below(a, b) && Below(b, c)
    ensures Below(a, c)
    decreases |a|
  {
    if |a| > 0 && a[0] == b[0] && b[0] == c[0] {
      BelowTransitive(a[1..], b[1..], c[1..]);
    }
  }

  lemma {:induction false} BelowTotal(a: string, b: string)
    ensures a == b || Below(a, b) || Below(b, a)
    decreases |a|
  {
    if |a| > 0 && |b| > 0 && a[0] == b[0] {
      BelowTotal(a[1..], b[1..]);
      if a[1..] == b[1..] {
        assert a == [a[0]] + a[1..] && b == [b[0]] + b[1..];
      }
    }
  }

  lemma BelowAsymmetric(a: string, b: string)
    requires Below(a, b)
    ensures !Below(b, a)
  {
    if Below(b, a) {
      BelowTransitive(a, b, a);
      BelowIrreflexive(a);
    }
  }

  /** Strictly ascending, hence also free of repetitions. */
  predicate Ascending(r: seq<string>) {
    forall i, j :: 0 <= i < j < |r| ==> Below(r[i], r[j])
  }

  predicate IsLeast(m: string, s: set<string>) {
    m in s && forall x :: x in s && x != m ==> Below(m, x)
  }

  lemma {:induction false} LeastExists(s: set<string>)
    requires s != {}
    ensures exists m :: IsLeast(m, s)
    decreases |s|
  {
    var x :| x in s;
    if s != {x} {
      LeastExists(s - {x});
      var m :| IsLeast(m, s - {x});
      BelowTotal(x, m);
      if Below(x, m) {
        forall y | y in s && y != x
          ensures Below(x, y)
        {
          if y != m {
            BelowTransitive(x, m, y);
          }
        }
        assert IsLeast(x, s);
      } else {
        assert IsLeast(m, s);
      }
    } else {
      assert IsLeast(x, s);
    }
  }

  lemma LeastUnique(s: set<string>)
    ensures forall m, n :: IsLeast(m, s) && IsLeast(n, s) ==> m == n
  {
    forall m, n | IsLeast(m, s) && IsLeast(n, s)
      ensures m == n
    {
      if m != n {
        BelowAsymmetric(m, n);
      }
    }
  }

  /** Python's `sorted(s)` for a set of names. */
  function SortedSet(s: set<string>): (r: seq<string>)
    ensures Ascending(r)
    ensures forall x :: x in r <==> x in s
    ensures |r| == |s|
    decreases |s|
  {
    if s == {} then []
    else
      LeastExists(s);
      LeastUnique(s);
      var m :| IsLeast(m, s);
      var rest := SortedSet(s - {m});
      assert forall j :: 0 <= j < |rest| ==> rest[j] in s - {m};
      [m] + rest
  }

  lemma SortedSetStartsWithLeast(s: set<string>, m: string)
    requires IsLeast(m, s)
    ensures SortedSet(s) == [m] + SortedSet(s - {m})
  {
    LeastUnique(s);
  }

  /** The tail of an ascending listing of `s` lists `s` without its head. */
  lemma AscendingTail(r: seq<string>, s: set<string>)
    requires r != [] && Ascending(r)
    requires forall x :: x in r <==> x in s
    ensures IsLeast(r[0], s)
    ensures Ascending(r[1..])
    ensures forall x :: x in r[1..] <==> x in s - {r[0]}
  {
    var rest := r[1..];
    forall x | x in s && x != r[0]
      ensures Below(r[0], x)
    {
      var j :| 0 <= j < |r| && r[j] == x;
    }
    forall x
      ensures x in rest <==> x in s - {r[0]}
    {
      if x in rest {
        var j :| 0 <= j < |rest| && rest[j] == x;
        assert Below(r[0], r[j + 1]);
        BelowIrreflexive(x);
      }
      if x in s - {r[0]} {
        var j :| 0 <= j < |r| && r[j] == x;
        assert rest[j - 1] == x;
      }
    }
  }

  /** `SortedSet` is the only ascending listing of a set: any strictly ascending
      sequence holding exactly the elements of `s` is `SortedSet(s)`. */
  lemma {:induction false} SortedSetUnique(r: seq<string>, s: set<string>)
    requires Ascending(r)
    requires forall x :: x in r <==> x in s
    ensures r == SortedSet(s)
    decreases |r|
  {
    if r == [] {
      assert s == {};
    } else {
      AscendingTail(r, s);
      SortedSetStartsWithLeast(s, r[0]);
      SortedSetUnique(r[1..], s - {r[0]});
      assert r == [r[0]] + r[1..];
    }
  }
}
