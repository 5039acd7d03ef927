/** The functions of Go's `strings` package the application uses, for a
    one-character separator or cutset: `Contains`, `Trim`, `Split`, and
    `Join` as the inverse of `Split`. */
module GoStrings {

  /** `t` occurs in `s` starting at index `i`. */
  predicate OccursAt(s: string, t: string, i: int)
  {
    0 <= i && i + |t| <= |s| && forall k :: 0 <= k < |t| ==> s[i + k] == t[k]
  }

  /** `strings.Contains(s, t)`. */
  predicate Contains(s: string, t: string)
  {
    exists i :: 0 <= i <= |s| && OccursAt(s, t, i)
  }

  /** `strings.TrimLeft(s, string(cut))`. */
  function TrimLeft(s: string, cut: char): (r: string)
    ensures |r| <= |s| && r == s[|s| - |r|..]
    ensures forall k :: 0 <= k < |s| - |r| ==> s[k] == cut
    ensures |r| == 0 || r[0] != cut
    decreases |s|
  {
    if |s| > 0 && s[0] == cut then TrimLeft(s[1..], cut) else s
  }

  /** `strings.TrimRight(s, string(cut))`. */
  function TrimRight(s: string, cut: char): (r: string)
    ensures |r| <= |s| && r == s[..|r|]
    ensures forall k :: |r| <= k < |s| ==> s[k] == cut
    ensures |r| == 0 || r[|r| - 1] != cut
    decreases |s|
  {
    if |s| > 0 && s[|s| - 1] == cut then TrimRight(s[..|s| - 1], cut) else s
  }

  /** `strings.Trim(s, string(cut))`: every leading and trailing `cut` removed. */
  function Trim(s: string, cut: char): (r: string)
    ensures exists a, b :: 0 <= a <= b <= |s| && r == s[a..b] && TrimmedEnds(s, cut, a, b)
    ensures |r| == 0 || (r[0] != cut && r[|r| - 1] != cut)
  {
    var left := TrimLeft(s, cut);
    var r := TrimRight(left, cut);
    assert |r| > 0 ==> r[0] == left[0];
    var a := |s| - |left|;
    assert r == s[a..a + |r|];
    assert TrimmedEnds(s, cut, a, a + |r|) by {
      forall k | a + |r| <= k < |s| ensures s[k] == cut {
        assert s[k] == left[k - a];
      }
    }
    r
  }

  /** Everything of `s` outside `s[a..b]` is the character `cut`. */
  predicate TrimmedEnds(s: string, cut: char, a: int, b: int)
    requires 0 <= a <= b <= |s|
  {
    (forall k :: 0 <= k < a ==> s[k] == cut) && (forall k :: b <= k < |s| ==> s[k] == cut)
  }

  /** `strings.Split(s, string(sep))`: the pieces between separators; the
      empty string gives one empty piece. */
  function Split(s: string, sep: char): (parts: seq<string>)
    ensures |parts| >= 1
    ensures forall i :: 0 <= i < |parts| ==> sep !in parts[i]
    decreases |s|
  {
    if |s| == 0 then [""]
    else
      var rest := Split(s[1..], sep);
      if s[0] == sep then [""] + rest else [[s[0]] + rest[0]] + rest[1..]
  }

  /** `strings.Join(parts, string(sep))`. */
  function Join(parts: seq<string>, sep: char): string
    decreases |parts|
  {
    if |parts| == 0 then ""
    else if |parts| == 1 then parts[0]
    else parts[0] + [sep] + Join(parts[1..], sep)
  }

  /** Joining the pieces of a split gives the original string back. */
  lemma {:induction false} JoinSplit(s: string, sep: char)
    ensures Join(Split(s, sep), sep) == s
    decreases |s|
  {
    if |s| > 0 {
      var rest := Split(s[1..], sep);
      JoinSplit(s[1..], sep);
      if s[0] == sep {
        assert ([""] + rest)[1..] == rest;
        assert s == [sep] + s[1..];
      } else if |rest| == 1 {
        assert s == [s[0]] + s[1..];
      } else {
        var parts := [[s[0]] + rest[0]] + rest[1..];
        assert parts[1..] == rest[1..];
        assert Join(rest, sep) == rest[0] + [sep] + Join(rest[1..], sep);
        assert s == [s[0]] + s[1..];
      }
    }
  }

  /** Splitting a string that starts with a separator-free piece `x`. */
  lemma {:induction false} SplitPrefix(x: string, tail: string, sep: char)
    requires sep !in x
    ensures Split(x + tail, sep) == [x + Split(tail, sep)[0]] + Split(tail, sep)[1..]
    decreases |x|
  {
    if |x| == 0 {
      var parts := Split(tail, sep);
      assert x + tail == tail && x + parts[0] == parts[0];
      assert [parts[0]] + parts[1..] == parts;
    } else {
      SplitPrefix(x[1..], tail, sep);
      assert (x + tail)[1..] == x[1..] + tail;
      assert (x + tail)[0] == x[0];
      assert [x[0]] + (x[1..] + Split(tail, sep)[0]) == x + Split(tail, sep)[0];
    }
  }

  /** Splitting the join of separator-free pieces gives the pieces back. */
  lemma {:induction false} SplitJoin(parts: seq<string>, sep: char)
    requires |parts| >= 1
    requires forall i :: 0 <= i < |parts| ==> sep !in parts[i]
    ensures Split(Join(parts, sep), sep) == parts
    decreases |parts|
  {
    if |parts| == 1 {
      SplitPrefix(parts[0], "", sep);
      assert parts[0] + "" == parts[0];
    } else {
      var rest := parts[1..];
      SplitJoin(rest, sep);
      var tail := [sep] + Join(rest, sep);
      assert tail[1..] == Join(rest, sep);
      assert Split(tail, sep) == [""] + Split(Join(rest, sep), sep);
      SplitPrefix(parts[0], tail, sep);
      assert parts[0] + [sep] + Join(rest, sep) == parts[0] + tail;
      assert parts[0] + "" == parts[0];
      assert parts == [parts[0]] + rest;
    }
  }

  /** `t` occurs in `x + s` at `i + |x|` whenever it occurs in `s` at `i`. */
  lemma OccursAtShift(x: string, s: string, t: string, i: int)
    requires OccursAt(s, t, i)
    ensures OccursAt(x + s, t, i + |x|)
  {
    forall k | 0 <= k < |t|
      ensures (x + s)[i + |x| + k] == t[k]
    {
      assert (x + s)[i + |x| + k] == s[i + k];
    }
  }

  /** `t` occurs in `s` at `i - |x|` whenever it occurs in `x + s` at `i >= |x|`. */
  lemma OccursAtUnshift(x: string, s: string, t: string, i: int)
    requires i >= |x| && OccursAt(x + s, t, i)
    ensures OccursAt(s, t, i - |x|)
  {
    forall k | 0 <= k < |t|
      ensures s[i - |x| + k] == t[k]
    {
      assert (x + s)[i + k] == s[i - |x| + k];
    }
  }
}
