/** Case-insensitive literal search over transcript text.

    Every regular expression the notetaker uses, except the patient-name
    pattern (see the `Summary` module), is an alternation of literals
    searched with the ignore-case flag. This module provides the one
    primitive those searches reduce to: "the lower-cased literal occurs in
    the lower-cased text". Lower-casing is ASCII only. It also provides a
    character-by-character reading of that search, `MatchesAtCI`, as an
    independent reference for it.
 */
module Text {

  predicate IsUpper(c: char) {
    'A' <= c <= 'Z'
  }

  /** ASCII lower-casing of one character; every other character is kept. */
  function LowerChar(c: char): (d: char)
    ensures !IsUpper(d)
    ensures !IsUpper(c) ==> d == c
  {
    if IsUpper(c) then (c as int + 32) as char else c
  }

  /** ASCII lower-casing of a string, character by character. */
  function Lower(s: string): (r: string)
    ensures |r| == |s|
    ensures forall i :: 0 <= i < |s| ==> r[i] == LowerChar(s[i])
  {
    seq(|s|, i requires 0 <= i < |s| => LowerChar(s[i]))
  }

  /** `s` has no ASCII upper-case letter (written recursively so that it
      evaluates on literals). */
  predicate NoUpper(s: string) {
    |s| == 0 || (!IsUpper(s[0]) && NoUpper(s[1..]))
  }

  lemma {:induction false} LowerOfNoUpper(s: string)
    requires NoUpper(s)
    ensures Lower(s) == s
  {
    if |s| > 0 {
      LowerOfNoUpper(s[1..]);
      assert Lower(s) == [LowerChar(s[0])] + Lower(s[1..]);
    }
  }

  /** `p` occurs in `s` as a contiguous block starting at index `i`. */
  predicate OccursAt(p: string, s: string, i: int) {
    0 <= i <= |s| - |p| && s[i..i + |p|] == p
  }

  /** `p` occurs in `s` as a contiguous block. */
  predicate IsSubstring(p: string, s: string) {
    exists i | 0 <= i <= |s| - |p| :: OccursAt(p, s, i)
  }

  /** The literal `lit` occurs in `text`, ignoring ASCII case. */
  predicate ContainsCI(text: string, lit: string) {
    IsSubstring(Lower(lit), Lower(text))
  }

  lemma LowerAppend(a: string, b: string)
    ensures Lower(a + b) == Lower(a) + Lower(b)
  {
    var l, r := Lower(a + b), Lower(a) + Lower(b);
    assert |l| == |r|;
    forall i | 0 <= i < |l| ensures l[i] == r[i] {
      if i < |a| {
        assert (a + b)[i] == a[i];
      } else {
        assert (a + b)[i] == b[i - |a|];
      }
    }
  }

  /** Whatever occurs inside an occurring block occurs too. */
  lemma SubstringOfInfix(u: string, v: string, w: string, s: string)
    requires IsSubstring(u + v + w, s)
    ensures IsSubstring(v, s)
  {
    var whole := u + v + w;
    var i :| 0 <= i <= |s| - |whole| && OccursAt(whole, s, i);
    assert |whole| == |u| + |v| + |w|;
    assert s[i..i + |whole|] == whole;
    var j := i + |u|;
    assert whole[|u|..|u| + |v|] == v;
    forall k | 0 <= k < |v| ensures s[j + k] == v[k] {
      assert s[j + k] == s[i..i + |whole|][|u| + k];
    }
    assert s[j..j + |v|] == v;
    assert OccursAt(v, s, j);
  }

  lemma InfixOccurs(u: string, v: string, w: string)
    ensures IsSubstring(v, u + v + w)
  {
    assert (u + v + w)[|u|..|u| + |v|] == v;
    assert OccursAt(v, u + v + w, |u|);
  }

  /** A case-insensitive hit on `u + v + w` is also a hit on `v`. */
  lemma ContainsInfix(text: string, u: string, v: string, w: string)
    requires ContainsCI(text, u + v + w)
    ensures ContainsCI(text, v)
  {
    LowerAppend(u + v, w);
    LowerAppend(u, v);
    SubstringOfInfix(Lower(u), Lower(v), Lower(w), Lower(text));
  }

  /** A lower-case literal found verbatim at `i` is a case-insensitive hit. */
  lemma LowerCaseOccurrence(text: string, lit: string, i: int)
    requires NoUpper(lit)
    requires OccursAt(lit, text, i)
    ensures ContainsCI(text, lit)
  {
    LowerOfNoUpper(lit);
    forall k | 0 <= k < |lit| ensures Lower(text)[i + k] == lit[k] {
      assert text[i + k] == lit[k];
      assert LowerChar(lit[k]) == Lower(lit)[k];
    }
    assert Lower(text)[i..i + |lit|] == lit;
    assert OccursAt(Lower(lit), Lower(text), i);
  }

  /** Reference reading of a case-insensitive hit at `i`: every character of
      `lit` agrees with the text's character there once both are folded. */
  predicate MatchesAtCI(text: string, lit: string, i: int) {
    0 <= i <= |text| - |lit| &&
    forall j | 0 <= j < |lit| :: LowerChar(text[i + j]) == LowerChar(lit[j])
  }

  lemma OccursAtLowerIff(text: string, lit: string, i: int)
    ensures OccursAt(Lower(lit), Lower(text), i) <==> MatchesAtCI(text, lit, i)
  {
    if 0 <= i <= |text| - |lit| {
      var window := Lower(text)[i..i + |lit|];
      if window == Lower(lit) {
        forall j | 0 <= j < |lit| ensures LowerChar(text[i + j]) == LowerChar(lit[j]) {
          assert window[j] == Lower(text)[i + j];
        }
      }
      if MatchesAtCI(text, lit, i) {
        forall j | 0 <= j < |lit| ensures window[j] == Lower(lit)[j] {
          assert window[j] == Lower(text)[i + j];
        }
      }
    }
  }

  /** The lower-case-both-sides search finds a literal exactly when some
      position matches character by character, up to case. */
  lemma ContainsCIIff(text: string, lit: string)
    ensures ContainsCI(text, lit) <==> exists i | 0 <= i <= |text| - |lit| :: MatchesAtCI(text, lit, i)
  {
    if ContainsCI(text, lit) {
      var i :| 0 <= i <= |text| - |lit| && OccursAt(Lower(lit), Lower(text), i);
      OccursAtLowerIff(text, lit, i);
    }
    if exists i | 0 <= i <= |text| - |lit| :: MatchesAtCI(text, lit, i) {
      var i :| 0 <= i <= |text| - |lit| && MatchesAtCI(text, lit, i);
      OccursAtLowerIff(text, lit, i);
    }
  }

  /** No non-empty literal occurs in the empty text. */
  lemma NothingInEmpty(lit: string)
    requires |lit| > 0
    ensures !ContainsCI("", lit)
  {
  }
}
