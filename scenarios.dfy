/** Concrete batches proved on the model. The first three are the worked
    examples of textpatch/patch_test.go; the first two show re-basing, where a
    later position is read against the lines as already changed by earlier
    operations. The last two pin down the range boundaries and the order of
    the checks. */
module PatchScenarios {
  import opened TextPatch
  import Lines

  /** A replace that grows the document by one line, then a delete and an
      insert at the same (shifted) line number. */
  lemma ReplaceDeleteInsert()
    ensures Patch(["one", "two", "three", "four"],
                  [Op(1, "replace", ["new two", "new three"]),
                   Op(3, "delete", []),
                   Op(3, "insert", ["inserted line"])])
         == Ok(["one", "new two", "new three", "inserted line", "four"])
  {
    var ops := [Op(1, "replace", ["new two", "new three"]), Op(3, "delete", []), Op(3, "insert", ["inserted line"])];
    var s0 := ["one", "two", "three", "four"];
    var s1 := ["one", "new two", "new three", "three", "four"];
    var s2 := ["one", "new two", "new three", "four"];
    var s3 := ["one", "new two", "new three", "inserted line", "four"];
    assert s0[..1] + ops[0].content + s0[2..] == s1;
    assert Step(s0, ops[0]) == Ok(s1);
    assert s1[..3] + s1[4..] == s2;
    assert Step(s1, ops[1]) == Ok(s2);
    assert s2[..3] + ops[2].content + s2[3..] == s3;
    assert Step(s2, ops[2]) == Ok(s3);
    assert ops[1..][1..] == [ops[2]];
    assert Fold(s2, [ops[2]]) == Fold(s3, []);
  }

  /** After a delete shrinks ["a","b","c"] to two lines, position 2 is the
      end, so the insert appends. */
  lemma DeleteThenAppend()
    ensures Patch(["a", "b", "c"], [Op(1, "delete", []), Op(2, "insert", ["X"])]) == Ok(["a", "c", "X"])
  {
    var ops := [Op(1, "delete", []), Op(2, "insert", ["X"])];
    assert ["a", "b", "c"][..1] + ["a", "b", "c"][2..] == ["a", "c"];
    assert Step(["a", "b", "c"], ops[0]) == Ok(["a", "c"]);
    assert ["a", "c"][..2] + ["X"] + ["a", "c"][2..] == ["a", "c", "X"];
    assert Step(["a", "c"], ops[1]) == Ok(["a", "c", "X"]);
    assert ops[1..] == [ops[1]];
    assert Fold(["a", "c"], [ops[1]]) == Fold(["a", "c", "X"], []);
  }

  /** Through the text wrapper: replacing line 1 of "a\nb\nc" with two lines. */
  lemma TextReplace()
    ensures Lines.Split("a\nb\nc") == ["a", "b", "c"]
    ensures Patch(Lines.Split("a\nb\nc"), [Op(1, "replace", ["hello", "world"])]).Ok?
    ensures Lines.Join(Patch(Lines.Split("a\nb\nc"), [Op(1, "replace", ["hello", "world"])]).value)
         == "a\nhello\nworld\nc"
  {
    Lines.SplitJoin(["a", "b", "c"]);
    assert Lines.Join(["a", "b", "c"]) == "a\nb\nc";
    var r := ["a", "hello", "world", "c"];
    assert ["a", "b", "c"][..1] + ["hello", "world"] + ["a", "b", "c"][2..] == r;
    assert Step(["a", "b", "c"], Op(1, "replace", ["hello", "world"])) == Ok(r);
    assert Fold(["a", "b", "c"], [Op(1, "replace", ["hello", "world"])]) == Fold(r, []);
    assert Lines.Join(r) == "a\nhello\nworld\nc";
  }

  /** Out of range at the boundary: on three lines, delete@3 and replace@3
      fail while insert@3 appends. */
  lemma RangeBoundaries()
    ensures Patch(["a", "b", "c"], [Op(3, "delete", [])]) == Err(DeleteRange)
    ensures Patch(["a", "b", "c"], [Op(3, "replace", ["z"])]) == Err(ReplaceRange)
    ensures Patch(["a", "b", "c"], [Op(3, "insert", ["z"])]) == Ok(["a", "b", "c", "z"])
  {
    assert ["a", "b", "c"][..3] + ["z"] + ["a", "b", "c"][3..] == ["a", "b", "c", "z"];
    assert Fold(["a", "b", "c", "z"], []) == Ok(["a", "b", "c", "z"]);
  }

  /** A decreasing batch is rejected for its order even though it also holds
      an unknown type. */
  lemma OrderBeforeType()
    ensures Patch(["a", "b", "c"], [Op(2, "frobnicate", []), Op(1, "delete", [])]) == Err(Unsorted)
  {
    var ops := [Op(2, "frobnicate", []), Op(1, "delete", [])];
    assert ops[1].line < ops[0].line;
    assert !Sorted(ops);
  }

  /** The wrapper itself on the text example: the method's own contract gives
      the joined text. */
  method PatchTextExample() {
    var r := PatchText("a\nb\nc", Parsed([Op(1, "replace", ["hello", "world"])]));
    TextReplace();
    assert r == Ok("a\nhello\nworld\nc");
  }
}
