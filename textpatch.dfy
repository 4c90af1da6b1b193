/** The line-patch engine: a batch of edit operations, each keyed by a
    zero-based line number, applied one after another to a working copy of a
    sequence of lines. Each operation's position is read against the lines as
    already changed by the operations before it. */
module TextPatch {
  import Lines

  /** One edit operation as decoded from the patch description. `kind` is the
      operation's type name as written; only "insert", "delete" and "replace"
      are understood. `content` is ignored by "delete". */
  datatype Op = Op(line: int, kind: string, content: seq<string>)

  /** The outcome of decoding the patch description: a batch of operations,
      or a description that does not have the expected shape. */
  datatype Decoded = Parsed(ops: seq<Op>) | Malformed

  datatype Error =
    | DecodeError
    | Unsorted
    | InsertRange
    | DeleteRange
    | ReplaceRange
    | BadType(name: string)

  datatype Result<T> = Ok(value: T) | Err(error: Error)

  predicate Known(kind: string) {
    kind == "insert" || kind == "delete" || kind == "replace"
  }

  /** The errors a single operation can raise, as opposed to the decode and
      order errors raised before any operation is applied. */
  predicate OpError(e: Error) {
    e.InsertRange? || e.DeleteRange? || e.ReplaceRange? || e.BadType?
  }

  /** Neighbouring operations never go back to an earlier line; equal line
      numbers are allowed. */
  predicate Sorted(ops: seq<Op>) {
    forall i :: 1 <= i < |ops| ==> ops[i - 1].line <= ops[i].line
  }

  /** One operation applied to the lines as they stand. Only a known type
      can succeed; an unknown type is reported by name; any failure is one of
      the per-operation errors. */
  function Step(lines: seq<string>, op: Op): (r: Result<seq<string>>)
    ensures r.Ok? ==> Known(op.kind)
    ensures r == Err(BadType(op.kind)) <==> !Known(op.kind)
    ensures r.Err? ==> OpError(r.error)
  {
    var pos := op.line;
    if op.kind == "insert" then
      if pos < 0 || pos > |lines| then Err(InsertRange)
      else Ok(lines[..pos] + op.content + lines[pos..])
    else if op.kind == "delete" then
      if pos < 0 || pos >= |lines| then Err(DeleteRange)
      else Ok(lines[..pos] + lines[pos + 1..])
    else if op.kind == "replace" then
      if pos < 0 || pos >= |lines| then Err(ReplaceRange)
      else Ok(lines[..pos] + op.content + lines[pos + 1..])
    else
      Err(BadType(op.kind))
  }

  /** The operations applied left to right, each to the result of the one
      before; the first failing operation's error is the result. */
  function Fold(lines: seq<string>, ops: seq<Op>): (r: Result<seq<string>>)
    ensures r.Err? ==> OpError(r.error)
    decreases |ops|
  {
    if |ops| == 0 then Ok(lines)
    else
      match Step(lines, ops[0])
      case Err(e) => Err(e)
      case Ok(next) => Fold(next, ops[1..])
  }

  /** The whole batch: the order check comes first, before any operation is
      applied or any type is examined. */
  function Patch(lines: seq<string>, ops: seq<Op>): (r: Result<seq<string>>)
    ensures r == Err(Unsorted) <==> !Sorted(ops)
    ensures r.Err? && Sorted(ops) ==> OpError(r.error)
  {
    if !Sorted(ops) then Err(Unsorted) else Fold(lines, ops)
  }

  /** Applies a decoded patch to the caller's lines. The caller's array is
      only read (there is no `modifies` clause), on the success and on the
      error paths alike; all splicing happens on a working copy. */
  method PatchLines(input: array<string>, batch: Decoded) returns (r: Result<seq<string>>)
    ensures batch.Malformed? ==> r == Err(DecodeError)
    ensures batch.Parsed? ==> r == Patch(input[..], batch.ops)
  {
    if batch.Malformed? {
      return Err(DecodeError);
    }
    var ops := batch.ops;
    // Defensive copy: a sequence is a value, so later splices cannot reach `input`.
    var lines := input[..];

    var i := 1;
    while i < |ops|
      invariant 1 <= i
      invariant forall j :: 1 <= j < i && j < |ops| ==> ops[j - 1].line <= ops[j].line
    {
      if ops[i].line < ops[i - 1].line {
        return Err(Unsorted);
      }
      i := i + 1;
    }

    var k := 0;
    while k < |ops|
      invariant 0 <= k <= |ops|
      invariant Fold(lines, ops[k..]) == Fold(input[..], ops)
    {
      var op := ops[k];
      assert ops[k..][1..] == ops[k + 1..];
      var pos := op.line;
      if op.kind == "insert" {
        if pos < 0 || pos > |lines| {
          return Err(InsertRange);
        }
        lines := lines[..pos] + op.content + lines[pos..];
      } else if op.kind == "delete" {
        if pos < 0 || pos >= |lines| {
          return Err(DeleteRange);
        }
        lines := lines[..pos] + lines[pos + 1..];
      } else if op.kind == "replace" {
        if pos < 0 || pos >= |lines| {
          return Err(ReplaceRange);
        }
        lines := lines[..pos] + op.content + lines[pos + 1..];
      } else {
        return Err(BadType(op.kind));
      }
      k := k + 1;
    }
    return Ok(lines);
  }

  /** Applies a decoded patch to a text: split on '\n', patch the lines,
      join the result with '\n'. */
  method PatchText(input: string, batch: Decoded) returns (r: Result<string>)
    ensures batch.Malformed? ==> r == Err(DecodeError)
    ensures batch.Parsed? && Patch(Lines.Split(input), batch.ops).Err? ==>
              r == Err(Patch(Lines.Split(input), batch.ops).error)
    ensures batch.Parsed? && Patch(Lines.Split(input), batch.ops).Ok? ==>
              r == Ok(Lines.Join(Patch(Lines.Split(input), batch.ops).value))
  {
    var split := Lines.Split(input);
    var lines := new string[|split|](j requires 0 <= j < |split| => split[j]);
    assert lines[..] == split;
    var patched := PatchLines(lines, batch);
    if patched.Err? {
      return Err(patched.error);
    }
    return Ok(Lines.Join(patched.value));
  }
}
