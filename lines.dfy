/** Splitting a text into lines and joining lines back into a text, on the
    single separator '\n'. These stand for the two library calls the text
    wrapper makes (split on "\n", join with "\n"), with their behaviour on the
    edge cases: splitting the empty text gives one empty line, and joining no
    lines gives the empty text. */
module Lines {

  const Sep: char := '\n'

  /** A line never holds the separator. */
  predicate IsLine(s: string) {
    Sep !in s
  }

  /** The pieces of `s` between separators, in order; there is always one
      more piece than there are separators in `s`. */
  function Split(s: string): (r: seq<string>)
    ensures |r| == 1 + Separators(s)
    ensures forall k :: 0 <= k < |r| ==> IsLine(r[k])
    decreases |s|
  {
    if |s| == 0 then [""]
    else if s[0] == Sep then [""] + Split(s[1..])
    else
      var rest := Split(s[1..]);
      [[s[0]] + rest[0]] + rest[1..]
  }

  /** Number of separators in `s`. */
  function Separators(s: string): nat
    decreases |s|
  {
    if |s| == 0 then 0 else (if s[0] == Sep then 1 else 0) + Separators(s[1..])
  }

  /** The lines of `ls` with one separator between neighbours: joining
      n > 0 lines puts exactly n - 1 separators into the text. */
  function Join(ls: seq<string>): (r: string)
    ensures |ls| > 0 && (forall k :: 0 <= k < |ls| ==> IsLine(ls[k])) ==>
              Separators(r) == |ls| - 1
    decreases |ls|
  {
    if |ls| == 0 then ""
    else if |ls| == 1 then NoSeparators(ls[0]); ls[0]
    else
      var rest := Join(ls[1..]);
      SeparatorsAppend(ls[0] + [Sep], rest);
      SeparatorsAppend(ls[0], [Sep]);
      NoSeparators(ls[0]);
      ls[0] + [Sep] + rest
  }

  /** A line holds no separators. */
  lemma {:induction false} NoSeparators(a: string)
    ensures IsLine(a) ==> Separators(a) == 0
    decreases |a|
  {
    if |a| > 0 {
      NoSeparators(a[1..]);
    }
  }

  /** Separators add up over concatenation. */
  lemma {:induction false} SeparatorsAppend(a: string, b: string)
    ensures Separators(a + b) == Separators(a) + Separators(b)
    decreases |a|
  {
    if |a| == 0 {
      assert a + b == b;
    } else {
      assert (a + b)[1..] == a[1..] + b;
      SeparatorsAppend(a[1..], b);
    }
  }

  /** Joining the pieces of a split gives back the text. */
  lemma {:induction false} JoinSplit(s: string)
    ensures Join(Split(s)) == s
    decreases |s|
  {
    if |s| == 0 {
    } else if s[0] == Sep {
      JoinSplit(s[1..]);
      assert s == [Sep] + s[1..];
    } else {
      JoinSplit(s[1..]);
      var rest := Split(s[1..]);
      if |rest| == 1 {
        assert s == [s[0]] + rest[0];
      } else {
        assert rest == [rest[0]] + rest[1..];
        assert Join(rest) == rest[0] + [Sep] + Join(rest[1..]);
        assert s == [s[0]] + rest[0] + [Sep] + Join(rest[1..]);
      }
    }
  }

  /** A text without separators is a single line. */
  lemma {:induction false} SplitLine(a: string)
    requires IsLine(a)
    ensures Split(a) == [a]
    decreases |a|
  {
    if |a| > 0 {
      SplitLine(a[1..]);
      assert [a[0]] + a[1..] == a;
    }
  }

  /** Splitting at a separator that follows a line peels that line off. */
  lemma {:induction false} SplitAfterLine(a: string, b: string)
    requires IsLine(a)
    ensures Split(a + [Sep] + b) == [a] + Split(b)
    decreases |a|
  {
    var s := a + [Sep] + b;
    if |a| == 0 {
      assert s[1..] == b;
    } else {
      assert s[1..] == a[1..] + [Sep] + b;
      SplitAfterLine(a[1..], b);
      assert [a[0]] + a[1..] == a;
    }
  }

  /** Splitting the join of a non-empty list of lines gives the list back.
      (The empty list joins to "", which splits to [""].) */
  lemma {:induction false} SplitJoin(ls: seq<string>)
    requires |ls| > 0
    requires forall k :: 0 <= k < |ls| ==> IsLine(ls[k])
    ensures Split(Join(ls)) == ls
    decreases |ls|
  {
    if |ls| == 1 {
      SplitLine(ls[0]);
    } else {
      SplitJoin(ls[1..]);
      SplitAfterLine(ls[0], Join(ls[1..]));
      assert ls == [ls[0]] + ls[1..];
    }
  }
}
