/** What the patch engine promises: the meaning of each single operation,
    how operations compose, which error a batch reports, and what the order
    check buys. */
module PatchProperties {
  import opened TextPatch

  /** An insert at `p` succeeds exactly when 0 <= p <= |lines| (so appending
      at the end is allowed); it puts the content in front of line `p` and
      shifts the lines from `p` on to the right. */
  lemma InsertMeaning(lines: seq<string>, op: Op)
    requires op.kind == "insert"
    ensures Step(lines, op).Ok? <==> 0 <= op.line <= |lines|
    ensures Step(lines, op).Err? ==> Step(lines, op).error == InsertRange
    ensures Step(lines, op).Ok? ==>
              var r, p, c := Step(lines, op).value, op.line, op.content;
              && |r| == |lines| + |c|
              && (forall k :: 0 <= k < p ==> r[k] == lines[k])
              && (forall k :: 0 <= k < |c| ==> r[p + k] == c[k])
              && (forall k :: p <= k < |lines| ==> r[k + |c|] == lines[k])
  {
  }

  /** A delete at `p` succeeds exactly when 0 <= p < |lines|; it removes
      line `p`, the lines after it move up by one and no other line changes. */
  lemma DeleteMeaning(lines: seq<string>, op: Op)
    requires op.kind == "delete"
    ensures Step(lines, op).Ok? <==> 0 <= op.line < |lines|
    ensures Step(lines, op).Err? ==> Step(lines, op).error == DeleteRange
    ensures Step(lines, op).Ok? ==>
              var r, p := Step(lines, op).value, op.line;
              && |r| == |lines| - 1
              && (forall k :: 0 <= k < p ==> r[k] == lines[k])
              && (forall k :: p < k < |lines| ==> r[k - 1] == lines[k])
  {
  }

  /** A replace at `p` succeeds exactly when 0 <= p < |lines|; line `p` gives
      way to the content (zero or more lines), so the length changes by
      |content| - 1. */
  lemma ReplaceMeaning(lines: seq<string>, op: Op)
    requires op.kind == "replace"
    ensures Step(lines, op).Ok? <==> 0 <= op.line < |lines|
    ensures Step(lines, op).Err? ==> Step(lines, op).error == ReplaceRange
    ensures Step(lines, op).Ok? ==>
              var r, p, c := Step(lines, op).value, op.line, op.content;
              && |r| == |lines| + |c| - 1
              && (forall k :: 0 <= k < p ==> r[k] == lines[k])
              && (forall k :: 0 <= k < |c| ==> r[p + k] == c[k])
              && (forall k :: p < k < |lines| ==> r[k - 1 + |c|] == lines[k])
  {
  }

  /** Any other type name fails with that name. */
  lemma UnknownTypeMeaning(lines: seq<string>, op: Op)
    requires !Known(op.kind)
    ensures Step(lines, op) == Err(BadType(op.kind))
  {
  }

  /** Deleting at `p` undoes inserting one line at `p`. */
  lemma {:induction false} DeleteUndoesInsert(lines: seq<string>, p: int, x: string, c: seq<string>)
    requires 0 <= p <= |lines|
    ensures Fold(lines, [Op(p, "insert", [x]), Op(p, "delete", c)]) == Ok(lines)
  {
    var mid := lines[..p] + [x] + lines[p..];
    assert Step(lines, Op(p, "insert", [x])) == Ok(mid);
    assert mid[..p] + mid[p + 1..] == lines;
    assert Step(mid, Op(p, "delete", c)) == Ok(lines);
    assert [Op(p, "insert", [x]), Op(p, "delete", c)][1..] == [Op(p, "delete", c)];
    assert Fold(mid, [Op(p, "delete", c)]) == Fold(lines, []);
  }

  /** Inserting the removed line at `p` undoes deleting at `p`. */
  lemma {:induction false} InsertUndoesDelete(lines: seq<string>, p: int, c: seq<string>)
    requires 0 <= p < |lines|
    ensures Fold(lines, [Op(p, "delete", c), Op(p, "insert", [lines[p]])]) == Ok(lines)
  {
    var mid := lines[..p] + lines[p + 1..];
    assert Step(lines, Op(p, "delete", c)) == Ok(mid);
    assert mid[..p] + [lines[p]] + mid[p..] == lines;
    assert Step(mid, Op(p, "insert", [lines[p]])) == Ok(lines);
    assert [Op(p, "delete", c), Op(p, "insert", [lines[p]])][1..] == [Op(p, "insert", [lines[p]])];
    assert Fold(mid, [Op(p, "insert", [lines[p]])]) == Fold(lines, []);
  }

  /** Two operations on the same line see each other's effect: a delete at
      `p` followed by an insert at `p` succeeds exactly when a replace at `p`
      does, and then gives the same lines. */
  lemma {:induction false} ReplaceIsDeleteThenInsert(lines: seq<string>, p: int, c: seq<string>, d: seq<string>)
    ensures Fold(lines, [Op(p, "delete", d), Op(p, "insert", c)]).Ok?
        <==> Fold(lines, [Op(p, "replace", c)]).Ok?
    ensures Fold(lines, [Op(p, "replace", c)]).Ok? ==>
              Fold(lines, [Op(p, "delete", d), Op(p, "insert", c)]) == Fold(lines, [Op(p, "replace", c)])
  {
    var two := [Op(p, "delete", d), Op(p, "insert", c)];
    assert two[1..] == [Op(p, "insert", c)];
    if 0 <= p < |lines| {
      var mid := lines[..p] + lines[p + 1..];
      assert Step(lines, Op(p, "delete", d)) == Ok(mid);
      var r := lines[..p] + c + lines[p + 1..];
      assert mid[..p] + c + mid[p..] == r;
      assert Fold(mid, [Op(p, "insert", c)]) == Fold(r, []);
      assert Fold(lines, [Op(p, "replace", c)]) == Fold(r, []);
    } else {
      assert Fold(lines, two) == Err(DeleteRange);
      assert Fold(lines, [Op(p, "replace", c)]) == Err(ReplaceRange);
    }
  }

  /** The left fold over a concatenation runs the second part on the result
      of the first; an error in the first part ends it. */
  lemma {:induction false} FoldAppend(lines: seq<string>, a: seq<Op>, b: seq<Op>)
    ensures Fold(lines, a + b) ==
              match Fold(lines, a)
              case Err(e) => Err(e)
              case Ok(mid) => Fold(mid, b)
    decreases |a|
  {
    if |a| == 0 {
      assert a + b == b;
    } else {
      assert (a + b)[0] == a[0];
      assert (a + b)[1..] == a[1..] + b;
      match Step(lines, a[0])
      case Err(e) =>
      case Ok(next) => FoldAppend(next, a[1..], b);
    }
  }

  /** A successful batch held only known operation types. */
  lemma {:induction false} FoldOkKnown(lines: seq<string>, ops: seq<Op>)
    requires Fold(lines, ops).Ok?
    ensures forall k :: 0 <= k < |ops| ==> Known(ops[k].kind)
    decreases |ops|
  {
    if |ops| > 0 {
      var next := Step(lines, ops[0]).value;
      FoldOkKnown(next, ops[1..]);
      forall k | 1 <= k < |ops| ensures Known(ops[k].kind) {
        assert ops[k] == ops[1..][k - 1];
      }
    }
  }

  /** Once the operations before it have succeeded, an operation of unknown
      type makes the whole batch fail with that type's name, whatever comes
      after it: no partial result is returned. */
  lemma {:induction false} FirstBadTypeFails(lines: seq<string>, ops: seq<Op>, i: nat)
    requires i < |ops|
    requires Fold(lines, ops[..i]).Ok?
    requires !Known(ops[i].kind)
    ensures Fold(lines, ops) == Err(BadType(ops[i].kind))
  {
    assert ops == ops[..i] + ops[i..];
    FoldAppend(lines, ops[..i], ops[i..]);
    assert ops[i..][0] == ops[i];
  }

  /** How much one operation changes the number of lines when it succeeds. */
  function Delta(op: Op): int {
    if op.kind == "insert" then |op.content|
    else if op.kind == "delete" then -1
    else if op.kind == "replace" then |op.content| - 1
    else 0
  }

  function TotalDelta(ops: seq<Op>): int
    decreases |ops|
  {
    if |ops| == 0 then 0 else Delta(ops[0]) + TotalDelta(ops[1..])
  }

  /** A successful batch changes the number of lines by the sum of its
      operations' changes. */
  lemma {:induction false} FoldLength(lines: seq<string>, ops: seq<Op>)
    requires Fold(lines, ops).Ok?
    ensures |Fold(lines, ops).value| == |lines| + TotalDelta(ops)
    decreases |ops|
  {
    if |ops| > 0 {
      FoldLength(Step(lines, ops[0]).value, ops[1..]);
    }
  }

  /** The order check comes before everything else: a batch in which some
      operation goes back to an earlier line is rejected for its order, even
      if it also holds an unknown type or a position out of range. */
  lemma UnsortedRejected(lines: seq<string>, ops: seq<Op>, i: int)
    requires 1 <= i < |ops| && ops[i].line < ops[i - 1].line
    ensures Patch(lines, ops) == Err(Unsorted)
  {
  }

  /** An empty batch gives back the lines unchanged. */
  lemma EmptyBatch(lines: seq<string>)
    ensures Patch(lines, []) == Ok(lines)
  {
  }

  /** Every operation of a batch in order stands at or after the first one. */
  lemma {:induction false} SortedFromFirst(ops: seq<Op>)
    requires Sorted(ops)
    ensures forall k :: 0 <= k < |ops| ==> ops[0].line <= ops[k].line
    decreases |ops|
  {
    if |ops| > 1 {
      SortedFromFirst(ops[1..]);
      forall k | 1 <= k < |ops| ensures ops[0].line <= ops[k].line {
        assert ops[k] == ops[1..][k - 1];
      }
    }
  }

  /** Operations that all stand at line `m` or after leave the first `m`
      lines as they were. */
  lemma {:induction false} FoldKeepsPrefix(lines: seq<string>, ops: seq<Op>, m: int)
    requires 0 <= m <= |lines|
    requires forall k :: 0 <= k < |ops| ==> m <= ops[k].line
    requires Fold(lines, ops).Ok?
    ensures m <= |Fold(lines, ops).value|
    ensures Fold(lines, ops).value[..m] == lines[..m]
    decreases |ops|
  {
    if |ops| > 0 {
      var next := Step(lines, ops[0]).value;
      assert m <= |next| && next[..m] == lines[..m];
      forall k | 0 <= k < |ops| - 1 ensures m <= ops[1..][k].line {
        assert ops[1..][k] == ops[k + 1];
      }
      FoldKeepsPrefix(next, ops[1..], m);
    }
  }

  /** What the order check buys: a successful batch leaves every line before
      its first operation's line untouched. */
  lemma SortedBatchKeepsPrefix(lines: seq<string>, ops: seq<Op>)
    requires |ops| > 0
    requires Patch(lines, ops).Ok?
    ensures 0 <= ops[0].line <= |Patch(lines, ops).value|
    ensures Patch(lines, ops).value[..ops[0].line] == lines[..ops[0].line]
  {
    SortedFromFirst(ops);
    assert Step(lines, ops[0]).Ok?;
    FoldKeepsPrefix(lines, ops, ops[0].line);
  }
}
