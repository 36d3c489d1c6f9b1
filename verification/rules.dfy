/** Keyword rules: a literal-alternation pattern paired with a fixed label.

    A pattern like `neck pain|pain in my neck` searched with the
    ignore-case flag is modelled as the list of its literal alternatives;
    it matches when any alternative occurs (see `Text.ContainsCI`).
    Running a list of rules in order and appending the label of every rule
    that fires is `Select`.
 */
module Rules {
  import opened Text
  import opened SortedSets

  /** The literal alternatives of one regular expression. */
  type Pattern = seq<string>

  datatype Rule = Rule(pattern: Pattern, canonical: string)

  /** `re.search(pattern, text, re.I)` succeeds. */
  predicate Matches(text: string, p: Pattern) {
    exists k | 0 <= k < |p| :: ContainsCI(text, p[k])
  }

  /** Against the character-level reading of an ignore-case search: a
      pattern matches exactly when one of its alternatives agrees, up to
      case, with the text at some position. */
  lemma MatchesIff(text: string, p: Pattern)
    ensures Matches(text, p) <==>
            exists k, i | 0 <= k < |p| && 0 <= i <= |text| - |p[k]| :: MatchesAtCI(text, p[k], i)
  {
    forall k | 0 <= k < |p| ensures ContainsCI(text, p[k]) <==>
        exists i | 0 <= i <= |text| - |p[k]| :: MatchesAtCI(text, p[k], i)
    {
      ContainsCIIff(text, p[k]);
    }
  }

  function Labels(rules: seq<Rule>): (ls: seq<string>)
    ensures |ls| == |rules|
    ensures forall i :: 0 <= i < |rules| ==> ls[i] == rules[i].canonical
  {
    if |rules| == 0 then [] else [rules[0].canonical] + Labels(rules[1..])
  }

  /** One occurring alternative is enough for the pattern to match. */
  lemma MatchesByAlternative(text: string, p: Pattern, k: int)
    requires 0 <= k < |p| && ContainsCI(text, p[k])
    ensures Matches(text, p)
  {
  }

  /** The labels of the rules that fire, in rule order. */
  function Select(rules: seq<Rule>, text: string): (r: seq<string>)
    ensures |r| <= |rules|
  {
    if |rules| == 0 then []
    else (if Matches(text, rules[0].pattern) then [rules[0].canonical] else []) + Select(rules[1..], text)
  }

  /** `xs` is `ys` with some elements dropped, order kept. */
  predicate Subsequence(xs: seq<string>, ys: seq<string>)
    decreases |ys|
  {
    |xs| == 0 ||
    (|ys| > 0 &&
     ((xs[0] == ys[0] && Subsequence(xs[1..], ys[1..])) || Subsequence(xs, ys[1..])))
  }

  predicate Distinct(s: seq<string>) {
    forall i, j :: 0 <= i < j < |s| ==> s[i] != s[j]
  }

  /** A label is selected iff some rule carrying it fires. */
  lemma {:induction false} SelectMembership(rules: seq<Rule>, text: string, x: string)
    ensures x in Select(rules, text) <==>
            exists i :: 0 <= i < |rules| && rules[i].canonical == x && Matches(text, rules[i].pattern)
  {
    if |rules| > 0 {
      SelectMembership(rules[1..], text, x);
      var head := if Matches(text, rules[0].pattern) then [rules[0].canonical] else [];
      assert Select(rules, text) == head + Select(rules[1..], text);
      if exists i :: 0 <= i < |rules| && rules[i].canonical == x && Matches(text, rules[i].pattern) {
        var i :| 0 <= i < |rules| && rules[i].canonical == x && Matches(text, rules[i].pattern);
        if i > 0 {
          assert rules[1..][i - 1] == rules[i];
        }
      }
      if x in Select(rules[1..], text) {
        var i :| 0 <= i < |rules[1..]| && rules[1..][i].canonical == x && Matches(text, rules[1..][i].pattern);
        assert rules[i + 1] == rules[1..][i];
      }
    }
  }

  /** The selected labels appear in the order of the rule list. */
  lemma {:induction false} SelectSubsequence(rules: seq<Rule>, text: string)
    ensures Subsequence(Select(rules, text), Labels(rules))
  {
    if |rules| > 0 {
      SelectSubsequence(rules[1..], text);
      var rest := Select(rules[1..], text);
      assert Labels(rules)[1..] == Labels(rules[1..]);
      if Matches(text, rules[0].pattern) {
        assert Select(rules, text) == [rules[0].canonical] + rest;
        assert ([rules[0].canonical] + rest)[1..] == rest;
      } else {
        assert Select(rules, text) == rest;
      }
    }
  }

  /** Every element of a subsequence is an element of the whole. */
  lemma {:induction false} SubsequenceMembers(xs: seq<string>, ys: seq<string>)
    requires Subsequence(xs, ys)
    ensures forall x :: x in xs ==> x in ys
    decreases |ys|
  {
    if |xs| > 0 {
      if xs[0] == ys[0] && Subsequence(xs[1..], ys[1..]) {
        SubsequenceMembers(xs[1..], ys[1..]);
        assert forall x :: x in xs ==> x == xs[0] || x in xs[1..];
      } else {
        SubsequenceMembers(xs, ys[1..]);
      }
    }
  }

  /** Dropping elements from a strictly sorted sequence keeps it strictly sorted. */
  lemma {:induction false} SubsequenceSorted(xs: seq<string>, ys: seq<string>)
    requires Subsequence(xs, ys) && StrictlySorted(ys)
    ensures StrictlySorted(xs)
    ensures forall x :: x in xs ==> x in ys
    decreases |ys|
  {
    if |xs| > 0 {
      assert StrictlySorted(ys[1..]) by {
        forall i, j | 0 <= i < j < |ys[1..]| ensures StrLess(ys[1..][i], ys[1..][j]) {
          assert ys[1..][i] == ys[i + 1] && ys[1..][j] == ys[j + 1];
        }
      }
      if xs[0] == ys[0] && Subsequence(xs[1..], ys[1..]) {
        SubsequenceSorted(xs[1..], ys[1..]);
        forall y | y in xs[1..] ensures StrLess(xs[0], y) {
          var j :| 0 <= j < |ys[1..]| && ys[1..][j] == y;
          assert ys[j + 1] == y;
        }
        ConsSorted(xs[0], xs[1..]);
        assert xs == [xs[0]] + xs[1..];
        forall x | x in xs ensures x in ys {
          if x != xs[0] {
            assert x in xs[1..];
          }
        }
      } else {
        SubsequenceSorted(xs, ys[1..]);
      }
    }
  }

  /** Distinct labels give a duplicate-free selection. */
  lemma {:induction false} SelectDistinct(rules: seq<Rule>, text: string)
    requires Distinct(Labels(rules))
    ensures Distinct(Select(rules, text))
  {
    if |rules| > 0 {
      var rest := Select(rules[1..], text);
      assert Distinct(Labels(rules[1..])) by {
        assert forall i :: 0 <= i < |rules[1..]| ==> Labels(rules[1..])[i] == Labels(rules)[i + 1];
      }
      SelectDistinct(rules[1..], text);
      if Matches(text, rules[0].pattern) {
        var r := [rules[0].canonical] + rest;
        assert Select(rules, text) == r;
        forall i, j | 0 <= i < j < |r| ensures r[i] != r[j] {
          if i == 0 {
            assert r[j] in rest;
            SelectMembership(rules[1..], text, r[j]);
            var k :| 0 <= k < |rules[1..]| && rules[1..][k].canonical == r[j] && Matches(text, rules[1..][k].pattern);
            assert Labels(rules)[k + 1] == r[j];
          } else {
            assert r[i] == rest[i - 1] && r[j] == rest[j - 1];
          }
        }
      }
    }
  }

  /** Elements taken from a strictly sorted sequence at positions `pos`,
      which `back` maps back so that no position is used twice, are pairwise
      different. */
  lemma DistinctByPosition(xs: seq<string>, ss: seq<string>, pos: seq<int>, back: seq<int>)
    requires StrictlySorted(ss)
    requires |pos| == |xs|
    requires forall i :: 0 <= i < |xs| ==> 0 <= pos[i] < |ss| && xs[i] == ss[pos[i]]
    requires forall i :: 0 <= i < |xs| ==> 0 <= pos[i] < |back| && back[pos[i]] == i
    ensures Distinct(xs)
  {
    forall i, j | 0 <= i < j < |xs| ensures xs[i] != xs[j] {
      StrictlySortedDistinct(ss, pos[i], pos[j]);
    }
  }

  /** With distinct labels, a rule's label is selected exactly when that rule fires. */
  lemma SelectLabelIff(rules: seq<Rule>, text: string, i: int)
    requires Distinct(Labels(rules))
    requires 0 <= i < |rules|
    ensures rules[i].canonical in Select(rules, text) <==> Matches(text, rules[i].pattern)
  {
    var x := rules[i].canonical;
    var fires := Matches(text, rules[i].pattern);
    SelectMembership(rules, text, x);
    if x in Select(rules, text) && !fires {
      var j :| 0 <= j < |rules| && rules[j].canonical == x && Matches(text, rules[j].pattern);
      LabelsDistinctAt(rules, i, j);
      assert false;
    }
  }

  lemma LabelsDistinctAt(rules: seq<Rule>, i: int, j: int)
    requires Distinct(Labels(rules))
    requires 0 <= i < |rules| && 0 <= j < |rules|
    requires rules[i].canonical == rules[j].canonical
    ensures i == j
  {
    var ls := Labels(rules);
    assert ls[i] == ls[j];
  }

  /** Selecting from rules whose labels are strictly sorted yields a strictly sorted list. */
  lemma SelectSorted(rules: seq<Rule>, text: string)
    requires StrictlySorted(Labels(rules))
    ensures StrictlySorted(Select(rules, text))
  {
    SelectSubsequence(rules, text);
    SubsequenceSorted(Select(rules, text), Labels(rules));
  }

  /** Two tables holding the same rules select the same labels, in whatever order. */
  lemma SelectSameRules(a: seq<Rule>, b: seq<Rule>, text: string, y: string)
    requires forall r :: r in a <==> r in b
    ensures y in Select(a, text) <==> y in Select(b, text)
  {
    SelectMembership(a, text, y);
    SelectMembership(b, text, y);
    if y in Select(a, text) {
      var i :| 0 <= i < |a| && a[i].canonical == y && Matches(text, a[i].pattern);
      assert a[i] in b;
    }
    if y in Select(b, text) {
      var i :| 0 <= i < |b| && b[i].canonical == y && Matches(text, b[i].pattern);
      assert b[i] in a;
    }
  }

  /** When no rule fires nothing is selected. */
  lemma {:induction false} SelectNone(rules: seq<Rule>, text: string)
    requires forall i :: 0 <= i < |rules| ==> !Matches(text, rules[i].pattern)
    ensures Select(rules, text) == []
  {
    if |rules| > 0 {
      assert forall i :: 0 <= i < |rules[1..]| ==> rules[1..][i] == rules[i + 1];
      SelectNone(rules[1..], text);
    }
  }

  /** No pattern made of non-empty literals matches the empty text. */
  lemma EmptyMatchesNothing(p: Pattern)
    requires forall k :: 0 <= k < |p| ==> |p[k]| > 0
    ensures !Matches("", p)
  {
    forall k | 0 <= k < |p| ensures !ContainsCI("", p[k]) {
      NothingInEmpty(p[k]);
    }
  }
}
