/**
 The two string operations the pipeline relies on: suffix tests on file names
 (`str.endswith`) and joining the scoring criteria into one cell with `", "`
 (`str.join`). `SplitCriteria` is the left-to-right `str.split(", ")`, the
 join's inverse: splitting a join gives the parts back.
 */
module Text {

  /** The separator placed between scoring criteria in a flattened row. */
  const CriteriaSeparator: string := ", "

  /** `s.endswith(suffix)`: `s` is some prefix followed by `suffix`. */
  function EndsWith(s: string, suffix: string): (r: bool)
    ensures r <==> |suffix| <= |s| && s == s[..|s| - |suffix|] + suffix
  {
    |suffix| <= |s| && s[|s| - |suffix|..] == suffix
  }

  lemma EndsWithAppended(prefix: string, suffix: string)
    ensures EndsWith(prefix + suffix, suffix)
  {
    assert (prefix + suffix)[|prefix|..] == suffix;
  }

  /** Two suffixes with different last characters never both end the same name. */
  lemma SuffixesExclusive(s: string, a: string, b: string)
    requires |a| > 0 && |b| > 0 && a[|a| - 1] != b[|b| - 1]
    ensures !(EndsWith(s, a) && EndsWith(s, b))
  {
    if EndsWith(s, a) {
      assert s[|s| - 1] == s[|s| - |a|..][|a| - 1];
    }
    if EndsWith(s, b) {
      assert s[|s| - 1] == s[|s| - |b|..][|b| - 1];
    }
  }

  function TotalLength(parts: seq<string>): nat
  {
    if |parts| == 0 then 0 else |parts[0]| + TotalLength(parts[1..])
  }

  /** `sep.join(parts)`: the parts in order, with `sep` between neighbours. The
      result is empty for no parts, otherwise as long as all parts plus one
      separator per gap and starts with the first part; `JoinPlacesParts`
      places every part and separator. */
  function Join(sep: string, parts: seq<string>): (r: string)
    ensures |parts| > 0 ==> |r| == TotalLength(parts) + (|parts| - 1) * |sep|
    ensures |parts| > 0 ==> |parts[0]| <= |r| && r[..|parts[0]|] == parts[0]
    ensures |parts| == 0 ==> r == ""
  {
    if |parts| == 0 then ""
    else if |parts| == 1 then parts[0]
    else parts[0] + sep + Join(sep, parts[1..])
  }

  /** Where the `i`-th part starts in the join: every earlier part and one
      separator after each. */
  function Offset(sep: string, parts: seq<string>, i: nat): nat
    requires i <= |parts|
  {
    TotalLength(parts[..i]) + i * |sep|
  }

  lemma OffsetShift(sep: string, parts: seq<string>, i: nat)
    requires 0 < i <= |parts|
    ensures Offset(sep, parts, i) == |parts[0]| + |sep| + Offset(sep, parts[1..], i - 1)
  {
    assert parts[..i][1..] == parts[1..][..i - 1];
    assert i * |sep| == |sep| + (i - 1) * |sep|;
  }

  lemma SliceOfAppend(a: string, b: string, k: nat, m: nat)
    requires |a| <= k <= m <= |a| + |b|
    ensures (a + b)[k..m] == b[k - |a|..m - |a|]
  {
  }

  /** The `i`-th part sits in the join at its offset. */
  lemma {:induction false} JoinPartAt(sep: string, parts: seq<string>, i: nat)
    requires i < |parts|
    ensures Offset(sep, parts, i) + |parts[i]| <= |Join(sep, parts)|
    ensures Join(sep, parts)[Offset(sep, parts, i)..Offset(sep, parts, i) + |parts[i]|] == parts[i]
    decreases i
  {
    if i == 0 {
      assert parts[..0] == [];
    } else {
      var rest := parts[1..];
      var head := parts[0] + sep;
      var tail := Join(sep, rest);
      var o := Offset(sep, rest, i - 1);
      var n := |parts[i]|;
      OffsetShift(sep, parts, i);
      assert Offset(sep, parts, i) == |head| + o;
      JoinPartAt(sep, rest, i - 1);
      assert parts[i] == rest[i - 1];
      assert o + n <= |tail| && tail[o..o + n] == parts[i];
      assert Join(sep, parts) == head + tail;
      SliceOfAppend(head, tail, |head| + o, |head| + o + n);
    }
  }

  /** The separator fills the gap after the `i`-th part, up to the next part. */
  lemma {:induction false} JoinSeparatorAt(sep: string, parts: seq<string>, i: nat)
    requires i + 1 < |parts|
    ensures Offset(sep, parts, i + 1) == Offset(sep, parts, i) + |parts[i]| + |sep|
    ensures Offset(sep, parts, i + 1) <= |Join(sep, parts)|
    ensures Join(sep, parts)[Offset(sep, parts, i) + |parts[i]|..Offset(sep, parts, i + 1)] == sep
    decreases i
  {
    var rest := parts[1..];
    var head := parts[0] + sep;
    assert Join(sep, parts) == head + Join(sep, rest);
    OffsetShift(sep, parts, i + 1);
    if i == 0 {
      assert parts[..0] == [];
      assert parts[1..][..0] == [];
      assert (head + Join(sep, rest))[|parts[0]|..|head|] == sep;
    } else {
      OffsetShift(sep, parts, i);
      JoinSeparatorAt(sep, rest, i - 1);
      var o := Offset(sep, rest, i - 1) + |rest[i - 1]|;
      var o' := Offset(sep, rest, i);
      assert parts[i] == rest[i - 1];
      SliceOfAppend(head, Join(sep, rest), |head| + o, |head| + o');
    }
  }

  /** The join is every part in order at its offset, with `sep` filling each gap. */
  lemma JoinPlacesParts(sep: string, parts: seq<string>)
    ensures forall i :: 0 <= i < |parts| ==>
              Offset(sep, parts, i) + |parts[i]| <= |Join(sep, parts)|
              && Join(sep, parts)[Offset(sep, parts, i)..Offset(sep, parts, i) + |parts[i]|] == parts[i]
    ensures forall i :: 0 <= i < |parts| - 1 ==>
              Offset(sep, parts, i + 1) == Offset(sep, parts, i) + |parts[i]| + |sep|
              && Join(sep, parts)[Offset(sep, parts, i) + |parts[i]|..Offset(sep, parts, i + 1)] == sep
  {
    forall i | 0 <= i < |parts| {
      JoinPartAt(sep, parts, i);
    }
    forall i | 0 <= i < |parts| - 1
      ensures Offset(sep, parts, i + 1) == Offset(sep, parts, i) + |parts[i]| + |sep|
              && Join(sep, parts)[Offset(sep, parts, i) + |parts[i]|..Offset(sep, parts, i + 1)] == sep
    {
      JoinSeparatorAt(sep, parts, i);
    }
  }

  /** The criteria separator occurs in `s` starting at position `i`. */
  predicate SeparatorAt(s: string, i: int)
    requires 0 <= i <= |s| - |CriteriaSeparator|
  {
    s[i..i + |CriteriaSeparator|] == CriteriaSeparator
  }

  /** The text contains the criteria separator somewhere. */
  predicate ContainsSeparator(s: string) {
    exists i :: 0 <= i <= |s| - |CriteriaSeparator| && SeparatorAt(s, i)
  }

  lemma SeparatorFreeTail(s: string)
    requires |s| > 0 && !ContainsSeparator(s)
    ensures !ContainsSeparator(s[1..])
  {
    forall i | 0 <= i <= |s[1..]| - |CriteriaSeparator|
      ensures !SeparatorAt(s[1..], i)
    {
      assert s[1..][i..i + |CriteriaSeparator|] == s[i + 1..i + 1 + |CriteriaSeparator|];
      assert !SeparatorAt(s, i + 1);
    }
  }

  /** `s.split(", ")`: the maximal pieces between left-to-right occurrences of
      the separator; always at least one piece. */
  function SplitCriteria(s: string): (pieces: seq<string>)
    ensures |pieces| >= 1
    decreases |s|
  {
    if |s| < |CriteriaSeparator| then [s]
    else if SeparatorAt(s, 0) then [""] + SplitCriteria(s[|CriteriaSeparator|..])
    else
      var rest := SplitCriteria(s[1..]);
      [[s[0]] + rest[0]] + rest[1..]
  }

  /** A text without the separator splits into itself alone. */
  lemma {:induction false} SplitWithoutSeparator(s: string)
    requires !ContainsSeparator(s)
    ensures SplitCriteria(s) == [s]
    decreases |s|
  {
    if |s| >= 2 {
      assert !SeparatorAt(s, 0);
      SeparatorFreeTail(s);
      SplitWithoutSeparator(s[1..]);
      assert [s[0]] + s[1..] == s;
    }
  }

  /** The first separator after a separator-free head ends exactly that head. */
  lemma {:induction false} SplitAfterHead(head: string, tail: string)
    requires !ContainsSeparator(head)
    ensures SplitCriteria(head + CriteriaSeparator + tail) == [head] + SplitCriteria(tail)
    decreases |head|
  {
    var s := head + CriteriaSeparator + tail;
    if |head| == 0 {
      assert s == CriteriaSeparator + tail;
      assert s[2..] == tail;
    } else {
      if |head| >= 2 {
        assert s[..2] == head[..2];
        assert !SeparatorAt(head, 0);
      } else {
        assert s[..2] == [head[0], CriteriaSeparator[0]];
        assert CriteriaSeparator[0] != CriteriaSeparator[1];
      }
      assert !SeparatorAt(s, 0);
      var rest := head[1..];
      SeparatorFreeTail(head);
      assert s[1..] == rest + CriteriaSeparator + tail;
      SplitAfterHead(rest, tail);
      assert [head[0]] + rest == head;
    }
  }

  /** Splitting undoes joining when no part contains the separator. */
  lemma {:induction false} SplitJoinRoundTrip(parts: seq<string>)
    requires |parts| > 0
    requires forall i :: 0 <= i < |parts| ==> !ContainsSeparator(parts[i])
    ensures SplitCriteria(Join(CriteriaSeparator, parts)) == parts
  {
    if |parts| == 1 {
      SplitWithoutSeparator(parts[0]);
    } else {
      SplitJoinRoundTrip(parts[1..]);
      SplitAfterHead(parts[0], Join(CriteriaSeparator, parts[1..]));
      assert [parts[0]] + parts[1..] == parts;
    }
  }

  /** A part that contains the separator is indistinguishable, once joined,
      from the two parts on either side of it. */
  lemma JoinIsLossy()
    ensures Join(CriteriaSeparator, ["a, b"]) == Join(CriteriaSeparator, ["a", "b"])
    ensures ["a, b"] != ["a", "b"]
  {
  }
}
