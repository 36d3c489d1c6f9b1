/** `", ".join(parts)` and its inverse `s.split(", ")`.

    The SOAP note flattens label lists with `", ".join`. Splitting on the
    same separator gives the list back whenever no part contains a comma,
    which is the case for every label the rules produce.
 */
module CommaLists {
  import opened Text

  const Sep: string := ", "

  /** `", ".join(parts)`. The result has a comma exactly when a separator
      was inserted or some part already had one. */
  function Join(parts: seq<string>): (s: string)
    ensures |parts| == 0 ==> s == ""
    ensures CommaFree(s) <==> |parts| <= 1 && forall i | 0 <= i < |parts| :: CommaFree(parts[i])
  {
    if |parts| == 0 then ""
    else if |parts| == 1 then parts[0]
    else
      var s := parts[0] + Sep + Join(parts[1..]);
      assert s[|parts[0]|] == ',';
      s
  }

  /** `s.split(", ")`: cut at every occurrence of the separator, left to right. */
  function Split(s: string): (parts: seq<string>)
    ensures |parts| >= 1
  {
    if |s| < 2 then [s]
    else if s[0] == ',' && s[1] == ' ' then [""] + Split(s[2..])
    else
      var rest := Split(s[1..]);
      [[s[0]] + rest[0]] + rest[1..]
  }

  predicate CommaFree(s: string) {
    forall i | 0 <= i < |s| :: s[i] != ','
  }

  lemma {:induction false} SplitCommaFree(x: string)
    requires CommaFree(x)
    ensures Split(x) == [x]
  {
    if |x| >= 2 {
      SplitCommaFree(x[1..]);
      assert [x[0]] + x[1..] == x;
    }
  }

  /** A comma-free first part is cut off exactly at the separator after it. */
  lemma {:induction false} SplitAfterPart(x: string, r: string)
    requires CommaFree(x)
    ensures Split(x + Sep + r) == [x] + Split(r)
    decreases |x|
  {
    var s := x + Sep + r;
    if |x| == 0 {
      assert s == ", " + r;
      assert s[2..] == r;
    } else {
      assert s[1..] == x[1..] + Sep + r;
      SplitAfterPart(x[1..], r);
      assert [x[0]] + x[1..] == x;
    }
  }

  /** Round trip: splitting a join of comma-free parts gives the parts back. */
  lemma {:induction false} SplitJoin(parts: seq<string>)
    requires |parts| > 0
    requires forall i :: 0 <= i < |parts| ==> CommaFree(parts[i])
    ensures Split(Join(parts)) == parts
  {
    if |parts| == 1 {
      SplitCommaFree(parts[0]);
    } else {
      SplitJoin(parts[1..]);
      SplitAfterPart(parts[0], Join(parts[1..]));
      assert [parts[0]] + parts[1..] == parts;
    }
  }

  /** Every part appears in the joined text. */
  lemma {:induction false} JoinContainsParts(parts: seq<string>, i: int)
    requires 0 <= i < |parts|
    ensures IsSubstring(parts[i], Join(parts))
  {
    if |parts| > 1 {
      var t := Join(parts[1..]);
      assert Join(parts) == parts[0] + Sep + t;
      if i == 0 {
        InfixOccurs("", parts[0], Sep + t);
        assert "" + parts[0] + (Sep + t) == Join(parts);
      } else {
        JoinContainsParts(parts[1..], i - 1);
        var k :| 0 <= k <= |t| - |parts[i]| && OccursAt(parts[i], t, k);
        var s := Join(parts);
        var off := |parts[0]| + |Sep|;
        assert s[off..] == t;
        assert s[off + k..off + k + |parts[i]|] == t[k..k + |parts[i]|];
        assert OccursAt(parts[i], s, off + k);
      }
    } else {
      assert OccursAt(parts[0], Join(parts), 0);
    }
  }
}
