# textpatch line-patch engine, in Dafny

This project models the line-patch engine of `textpatch`: `PatchLines` takes a
sequence of lines and a batch of edit operations (`insert`, `delete` or
`replace`, each keyed by a zero-based line number), checks that the line
numbers never decrease, and applies the operations one after another to a
working copy. Each position is checked against the lines as already changed by
the earlier operations. `PatchText` wraps it for a whole text by splitting on
`'\n'` and joining the result with `'\n'`.

Layout:

- `textpatch.dfy`, module `TextPatch`: the operation (`Op`), the decoded batch
  (`Decoded`), the errors, and the specification as functions. `Step` applies
  one operation. `Fold` is the left fold of `Step` over the batch and stops at
  the first error. `Patch` runs the order check first, then `Fold`. The
  imperative `PatchLines` follows the Go code: decode check, copy, order-check
  loop, apply loop with early returns. It is proved equal to `Patch`.
  `PatchText` is the text wrapper.
- `lines.dfy`, module `Lines`: `Split` and `Join` on `'\n'`. They behave like
  Go's `strings.Split` and `strings.Join` with `"\n"`: `Split("")` is `[""]`
  and `Join([])` is `""`.
- `properties.dfy`, module `PatchProperties`: lemmas about single operations,
  composition, errors, and what the order check guarantees.
- `scenarios.dfy`, module `PatchScenarios`: concrete batches proved on the
  model. Three are the worked examples of `textpatch/patch_test.go`, and the
  first two of those show re-basing. Two more cover the range boundaries and
  which check runs first. `PatchTextExample` runs the text example through the
  `PatchText` method itself.

The caller's lines are an `array<string>`, as a Go slice shares its backing
store with the caller. `PatchLines` has no `modifies` clause, so Dafny proves
the caller's lines are unchanged on every path, success or error. The working
copy is a `seq` snapshot taken before any splice.

## Model

| member | source | states |
|---|---|---|
| TextPatch.Step | textpatch/patch.go:45-64 | One pass of the type switch. It can succeed only for a known type. It gives `BadType` with the name exactly when the type is unknown. Any failure is a per-operation error (a range error or `BadType`), never a decode or order error. |
| TextPatch.Fold | textpatch/patch.go:44-66 | The apply loop: each operation is applied to the previous one's result, and the first failure ends it. It can only fail with a per-operation error. |
| TextPatch.Patch | textpatch/patch.go:36-66 | The order check, then the fold. The result is `Unsorted` exactly when some operation's line is below its predecessor's. A sorted batch can fail only with a per-operation error. |
| TextPatch.PatchLines | textpatch/patch.go:27-67 | A malformed description gives the decode error. Otherwise the result is `Patch`: `Unsorted` if any operation's line is below its predecessor's, else the left fold of single steps, each position read against the already-changed lines. The caller's array is never written. |
| TextPatch.PatchText | textpatch/patch.go:70-77 | The text is split on `'\n'` and patched. The patch's error is passed through unchanged. On success the patched lines are joined with `'\n'`. |
| PatchProperties.InsertMeaning | textpatch/patch.go:47-51 | An insert at `p` succeeds exactly when `0 <= p <= n`, so appending is allowed. Otherwise it is `InsertRange`. The result has `n + |content|` lines: the lines before `p`, then the content, then the old lines from `p` on. |
| PatchProperties.DeleteMeaning | textpatch/patch.go:52-56 | A delete at `p` succeeds exactly when `0 <= p < n`. Otherwise it is `DeleteRange`. The result has one line fewer, the lines before `p` are unchanged, and each later line moves up by one. |
| PatchProperties.ReplaceMeaning | textpatch/patch.go:57-61 | A replace at `p` succeeds exactly when `0 <= p < n`. Otherwise it is `ReplaceRange`. Line `p` gives way to the content, so the length changes by `|content| - 1`, and all other lines keep their order. |
| PatchProperties.UnknownTypeMeaning | textpatch/patch.go:62-63 | Any type other than the three known ones fails with `BadType` carrying that name. |
| PatchProperties.DeleteUndoesInsert | textpatch/patch.go:47-56 | Inserting one line at `p` and then deleting at `p` gives back the original lines. |
| PatchProperties.InsertUndoesDelete | textpatch/patch.go:47-56 | Deleting at `p` and then inserting the removed line at `p` gives back the original lines. |
| PatchProperties.ReplaceIsDeleteThenInsert | textpatch/patch.go:43-61 | Operations at the same line see each other's effect. The batch delete@p, insert@p succeeds exactly when replace@p does, and then gives the same lines. |
| PatchProperties.FoldAppend | textpatch/patch.go:44-66 | Applying `a + b` is applying `a` and then `b` to its result. An error in `a` ends the batch. |
| PatchProperties.FoldOkKnown | textpatch/patch.go:62-63 | A batch that succeeds has only known operation types. |
| PatchProperties.FirstBadTypeFails | textpatch/patch.go:44-65 | Suppose the operations before position `i` succeed and operation `i` has an unknown type. Then the whole batch fails with `BadType` of that type, whatever follows, and no partial result is returned. |
| PatchProperties.FoldLength | textpatch/patch.go:44-66 | A successful batch changes the line count by the sum of each operation's change: `+|content|` for insert, `-1` for delete, `|content| - 1` for replace. |
| PatchProperties.UnsortedRejected | textpatch/patch.go:36-41 | An operation whose line is below its predecessor's makes the batch fail with `Unsorted`. This holds whatever types or positions the batch holds. |
| PatchProperties.EmptyBatch | textpatch/patch.go:43-66 | An empty batch gives back the input unchanged. |
| PatchProperties.FoldKeepsPrefix | textpatch/patch.go:44-65 | Suppose every operation is at line `m` or later. Then a successful batch keeps the first `m` lines as they were. |
| PatchProperties.SortedBatchKeepsPrefix | textpatch/patch.go:36-66 | Because of the order check, a successful batch leaves every line before its first operation's line untouched. |
| PatchScenarios.ReplaceDeleteInsert | textpatch/patch_test.go:8-22 | replace@1 with two lines, delete@3, insert@3 on `one two three four` gives `one, new two, new three, inserted line, four`. |
| PatchScenarios.DeleteThenAppend | textpatch/patch_test.go:25-35 | delete@1 then insert@2 `X` on `a b c` gives `a c X`. |
| PatchScenarios.TextReplace | textpatch/patch_test.go:38-48 | Replacing line 1 of `"a\nb\nc"` with `hello`, `world` and joining gives `"a\nhello\nworld\nc"`. |
| PatchScenarios.RangeBoundaries | textpatch/patch.go:48-61 | On three lines, delete@3 and replace@3 are out of range and insert@3 appends. |
| PatchScenarios.OrderBeforeType | textpatch/patch.go:36-64 | A decreasing batch that also holds an unknown type reports the order error. |
| Lines.Split | textpatch/patch.go:71 | Splitting gives one more piece than there are separators, and no piece holds a separator. |
| Lines.Join | textpatch/patch.go:76 | Joining n > 0 separator-free lines puts exactly n - 1 separators into the text. This matches `Split`'s count of one piece more than separators. |
| Lines.JoinSplit | textpatch/patch.go:71-76 | Joining the pieces of a split gives back the text. |
| Lines.SplitJoin | textpatch/patch.go:71-76 | Splitting the join of a non-empty list of lines gives back the list. |

## Left out

- JSON decoding (`parsePatchOps`, textpatch/patch.go:17-24) is not modelled. The batch comes in already decoded as `Decoded`. `Malformed` stands for any decode failure, which `PatchLines` reports as `DecodeError` before doing anything else.
- `PatchFile` (textpatch/patch.go:80-96) is file I/O: reading the file, writing it, and choosing the output path. It is not modelled. Its patching logic is the same as `PatchText`.
- Go's slice aliasing and capacity reuse in the `append` splices is not modelled. The model keeps the observable splice result, on a `seq`.
- Error messages are not modelled. The error kinds are told apart, and the unknown type's name is kept in `BadType`.
- Line numbers are unbounded integers. Go's `int` is 64 bits wide, but `PatchLines` does no arithmetic on positions that could overflow.
