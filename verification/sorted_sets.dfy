/** Python's `sorted(set(xs))` on lists of strings.

    Python orders strings lexicographically by code point; Dafny's `<` on
    `char` is the same code-point order, so `StrLess` below is that order.
    A sorted, duplicate-free list is represented as a strictly ascending
    sequence.
 */
module SortedSets {

  /** Lexicographic code-point order on strings: a proper prefix comes first. */
  predicate StrLess(a: string, b: string) {
    if |a| == 0 then |b| > 0
    else if |b| == 0 then false
    else if a[0] < b[0] then true
    else a[0] == b[0] && StrLess(a[1..], b[1..])
  }

  lemma {:induction false} StrLessIrreflexive(a: string)
    ensures !StrLess(a, a)
  {
    if |a| > 0 {
      StrLessIrreflexive(a[1..]);
    }
  }

  lemma {:induction false} StrLessTransitive(a: string, b: string, c: string)
    requires StrLess(a, b) && StrLess(b, c)
    ensures StrLess(a, c)
  {
    if |a| > 0 && a[0] == b[0] && b[0] == c[0] {
      StrLessTransitive(a[1..], b[1..], c[1..]);
    }
  }

  lemma {:induction false} StrLessTotal(a: string, b: string)
    ensures a == b || StrLess(a, b) || StrLess(b, a)
  {
    if |a| > 0 && |b| > 0 && a[0] == b[0] {
      StrLessTotal(a[1..], b[1..]);
      if a[1..] == b[1..] {
        assert a == [a[0]] + a[1..] && b == [b[0]] + b[1..];
      }
    }
  }

  /** Every element is strictly below every later one: sorted and duplicate-free. */
  predicate StrictlySorted(s: seq<string>) {
    forall i, j :: 0 <= i < j < |s| ==> StrLess(s[i], s[j])
  }

  /** Adjacent elements are strictly ascending. */
  predicate Ascending(s: seq<string>) {
    forall i :: 0 <= i < |s| - 1 ==> StrLess(s[i], s[i + 1])
  }

  /** Checking neighbours suffices, because the order is transitive. */
  lemma {:induction false} AscendingIsStrictlySorted(s: seq<string>)
    requires Ascending(s)
    ensures StrictlySorted(s)
  {
    if |s| > 1 {
      AscendingIsStrictlySorted(s[1..]);
      forall j | 1 <= j < |s| ensures StrLess(s[0], s[j]) {
        if j > 1 {
          assert s[1..][0] == s[1] && s[1..][j - 1] == s[j];
          StrLessTransitive(s[0], s[1], s[j]);
        }
      }
      forall i, j | 0 <= i < j < |s| ensures StrLess(s[i], s[j]) {
        if i > 0 {
          assert s[1..][i - 1] == s[i] && s[1..][j - 1] == s[j];
        }
      }
    }
  }

  /** A strictly sorted sequence has no repeated element. */
  lemma StrictlySortedDistinct(s: seq<string>, i: int, j: int)
    requires StrictlySorted(s)
    requires 0 <= i < |s| && 0 <= j < |s| && i != j
    ensures s[i] != s[j]
  {
    if i < j {
      StrLessIrreflexive(s[i]);
    } else {
      StrLessIrreflexive(s[j]);
    }
  }

  /** Adds `x` to a strictly sorted sequence at its place, unless already present. */
  function Insert(s: seq<string>, x: string): (r: seq<string>)
    requires StrictlySorted(s)
    ensures StrictlySorted(r)
    ensures forall y :: y in r <==> y in s || y == x
    decreases |s|
  {
    if |s| == 0 then [x]
    else if x == s[0] then s
    else if StrLess(x, s[0]) then
      FrontSorted(x, s);
      [x] + s
    else
      StrLessTotal(x, s[0]);
      var rest := Insert(s[1..], x);
      ConsSorted(s[0], rest);
      [s[0]] + rest
  }

  /** Putting an element below the head in front keeps the sequence strictly sorted. */
  lemma FrontSorted(x: string, s: seq<string>)
    requires StrictlySorted(s) && |s| > 0 && StrLess(x, s[0])
    ensures StrictlySorted([x] + s)
  {
    forall j | 0 <= j < |s| ensures StrLess(x, s[j]) {
      if j > 0 {
        StrLessTransitive(x, s[0], s[j]);
      }
    }
    ConsSorted(x, s);
  }

  lemma ConsSorted(x: string, s: seq<string>)
    requires StrictlySorted(s)
    requires forall y :: y in s ==> StrLess(x, y)
    ensures StrictlySorted([x] + s)
  {
    var r := [x] + s;
    forall i, j | 0 <= i < j < |r| ensures StrLess(r[i], r[j]) {
      assert r[j] == s[j - 1];
      if i > 0 {
        assert r[i] == s[i - 1];
      }
    }
  }

  /** The model of `sorted(set(xs))`: strictly ascending, same elements as `xs`. */
  function SortDedup(xs: seq<string>): (r: seq<string>)
    ensures StrictlySorted(r)
    ensures forall y :: y in r <==> y in xs
    decreases |xs|
  {
    if |xs| == 0 then []
    else
      var init := xs[..|xs| - 1];
      assert xs == init + [xs[|xs| - 1]];
      Insert(SortDedup(init), xs[|xs| - 1])
  }

  /** Two strictly sorted sequences with the same elements are equal:
      the sorted, duplicate-free list of a set is unique. */
  lemma {:induction false} SortedUnique(a: seq<string>, b: seq<string>)
    requires StrictlySorted(a) && StrictlySorted(b)
    requires forall y :: y in a <==> y in b
    ensures a == b
    decreases |a|
  {
    if |a| > 0 {
      assert a[0] in a;
    }
    if |b| > 0 {
      assert b[0] in b;
    }
    if |a| > 0 {
      var i :| 0 <= i < |b| && b[i] == a[0];
      var j :| 0 <= j < |a| && a[j] == b[0];
      if i != 0 {
        // a[0] == b[i] sits above b[0] == a[j], which sits at or above a[0]
        if j != 0 {
          StrLessTransitive(a[0], a[j], a[0]);
        }
        StrLessIrreflexive(a[0]);
      }
      assert a[0] == b[0];
      forall y ensures y in a[1..] <==> y in b[1..] {
        if y in a[1..] {
          var k :| 0 <= k < |a[1..]| && a[1..][k] == y;
          StrictlySortedDistinct(a, 0, k + 1);
          assert y in b;
        }
        if y in b[1..] {
          var k :| 0 <= k < |b[1..]| && b[1..][k] == y;
          StrictlySortedDistinct(b, 0, k + 1);
          assert y in a;
        }
      }
      SortedUnique(a[1..], b[1..]);
      assert a == [a[0]] + a[1..] && b == [b[0]] + b[1..];
    }
  }
}
