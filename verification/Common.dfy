/** Vocabulary shared by every module: optional values, outcomes and date ranges. */
module Common {
  datatype Option<+T> = None | Some(value: T)

  /** What a transaction leaves behind: a value, or the reason it was rolled back. */
  datatype Result<+T, +E> = Ok(value: T) | Refused(reason: E)

  /** Both ends included, counted in days. */
  datatype Range = Range(first: int, last: int)

  /** A range that ends no earlier than it begins, as the tables demand of stored blocks. */
  type Span = r: Range | r.first <= r.last witness Range(0, 0)

  predicate Overlaps(a: Range, b: Range) {
    a.first <= b.last && b.first <= a.last
  }

  predicate Within(a: Range, b: Range) {
    b.first <= a.first && a.last <= b.last
  }

  function Day(d: int): Range {
    Range(d, d)
  }

  function Max(a: int, b: int): int {
    if a < b then b else a
  }

  function Min(a: int, b: int): int {
    if a < b then a else b
  }

  function ToSet<T(==)>(s: seq<T>): set<T> {
    set x | x in s
  }

  /** The distinct members of `s`, each at its first place. */
  function Distinct<T(==)>(s: seq<T>): (d: seq<T>)
    ensures ToSet(d) == ToSet(s)
    ensures forall i, j :: 0 <= i < j < |d| ==> d[i] != d[j]
  {
    if s == [] then []
    else
      var d := Distinct(s[..|s| - 1]);
      assert s == s[..|s| - 1] + [s[|s| - 1]];
      assert ToSet(s) == ToSet(s[..|s| - 1]) + {s[|s| - 1]};
      assert ToSet(d + [s[|s| - 1]]) == ToSet(d) + {s[|s| - 1]};
      if s[|s| - 1] in d then d else d + [s[|s| - 1]]
  }

  /** The `n` naturals from `lo` on. */
  function Block(lo: nat, n: nat): (s: set<nat>)
    ensures |s| == n
    ensures forall x :: x in s <==> lo <= x < lo + n
  {
    if n == 0 then {} else Block(lo, n - 1) + {lo + n - 1}
  }

  lemma SubsetSize<T>(a: set<T>, b: set<T>)
    requires a <= b
    ensures |a| <= |b|
    ensures |a| == |b| ==> a == b
  {
    assert b == a + (b - a);
  }

  lemma {:induction false} DistinctSize<T>(s: seq<T>)
    requires forall i, j :: 0 <= i < j < |s| ==> s[i] != s[j]
    ensures |ToSet(s)| == |s|
  {
    if s != [] {
      var p := s[..|s| - 1];
      DistinctSize(p);
      assert ToSet(s) == ToSet(p) + {s[|s| - 1]};
    }
  }
}
