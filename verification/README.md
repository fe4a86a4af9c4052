# Text_Diff core in Dafny

This project models the core of Horde's Text_Diff library, which computes, reverses, merges and renders line-based edit scripts.

- **Edit scripts** are sequences of `Op` values: Copy, Add, Delete and Change. Each Op has an original side and a final side. A side is either PHP `false` or a list of lines.
- **`HordeDiff`** answers questions about a script:
  - how many lines are added, deleted or shared;
  - whether the script is empty;
  - what the two texts are;
  - what the reversed script is;
  - whether the script checks out against the texts it came from.
- **`Mapped`** relabels a script computed on mapped lines with the real lines.
- **The xdiff engine** turns the output of the xdiff extension back into a script.
- **`ThreeWay`** merges two scripts that share an origin into a sequence of three-way blocks, using a `BlockBuilder`. `mergedOutput` renders those blocks with conflict markers.
  - `ThreeWayProofs` proves what the merge guarantees: it covers the origin, rebuilds both sides, merges cleanly when one side changes nothing, and shows where the code as written falls short.
  - `ThreeWaySymmetry` proves that exchanging the two scripts only exchanges the sides of each block.
- **Renderers.** The Unified, Context and Inline renderers provide the hooks that turn the parts of a hunk into text. The Inline renderer cuts text into words with `_splitOnWords`.
- **`HordeString`** contributes the three byte-string helpers `common`, `validUtf8` and `trimUtf8Bom`.

Each PHP class is a Dafny module of the same role.

**Modelling conventions**

- **Objects become values.** PHP objects that are mutated in place are immutable values here. Each operation that mutates returns the new value.
- **PHP semantics are written out where the code depends on them:**
  - *Truthiness.* An empty array, `false`, `""` and `"0"` are false.
  - *Undefined variables.* Reading an undefined variable gives null.
  - *`array_splice`.* A null length takes the rest of the array.
  - *Reads past the end.* Reading past the end of a string gives `""`, whose `ord` is 0.
- **Assertions.** A PHP `assert` is modelled as enabled: when it fails, the operation returns a `Failure`.
- **Collaborators become parameters.** Code that is not part of this model is passed in as a function-valued parameter:
  - the line formatter `_lines` of the base Renderer and its default prefix;
  - `htmlspecialchars`;
  - `preg_split`;
  - the xdiff extension;
  - the three-way ops' `isConflict` and `merged`;
  - the nested renderer that `_changed` runs.

## Model

| member | source | states |
|---|---|---|
| Ops.NOrig | lib/Horde/Text/Diff/Op/Base.php:25-28 | `norig()` is the number of original lines, and it is 0 exactly when the side is falsy |
| Ops.NFinal | lib/Horde/Text/Diff/Op/Base.php:30-33 | `nfinal()` is the number of final lines, and it is 0 exactly when the side is falsy |
| Ops.NewDelete | lib/Horde/Text/Diff/Op/Delete.php:20-29 | a Delete holds its lines on the original side and `false` on the final side; its reverse is an Add of the same lines |
| Ops.Reverse | lib/Horde/Text/Diff/Op/Delete.php:26-29 | reversing swaps Add and Delete, keeps Copy and Change, and swaps the two sides and their counts |
| Ops.ReverseInvolution | lib/Horde/Text/Diff/Op/Delete.php:26-29 | reversing a well-formed op twice gives the op back |
| HordeDiff.CountAddedLines | lib/Horde/Text/HordeDiff.php:68-78 | the loop sums `nfinal()` over the Add and Change ops |
| HordeDiff.CountDeletedLines | lib/Horde/Text/HordeDiff.php:85-95 | the loop sums `norig()` over the Delete and Change ops |
| HordeDiff.Lcs | lib/Horde/Text/HordeDiff.php:147-156 | the loop sums the original lengths of the Copy ops |
| HordeDiff.IsEmpty | lib/Horde/Text/HordeDiff.php:130-138 | the result is true exactly when every op is a Copy |
| HordeDiff.GetOriginal | lib/Horde/Text/HordeDiff.php:165-174 | the loop returns the concatenation of the original sides, in order |
| HordeDiff.GetFinal | lib/Horde/Text/HordeDiff.php:183-192 | the loop returns the concatenation of the final sides, in order |
| HordeDiff.ReverseDiff | lib/Horde/Text/HordeDiff.php:111-123 | the reversed script has one op per op, each the reverse of the op at the same position |
| HordeDiff.ReverseAll | lib/Horde/Text/HordeDiff.php:111-123 | the reversed script as a value, used by `_check`: one op per op, each the reverse of the op at the same position |
| HordeDiff.ReverseSwapsSides | lib/Horde/Text/HordeDiff.php:111-123 | the reversed script's original text is the script's final text, and its final text is the script's original text |
| HordeDiff.ReverseSwapsCounts | lib/Horde/Text/HordeDiff.php:68-123 | the reversed script adds as many lines as the script deletes, and deletes as many as it adds |
| HordeDiff.ReverseTwice | lib/Horde/Text/HordeDiff.php:111-123 | reversing a well-formed script twice gives the script back |
| HordeDiff.LineAccounting | lib/Horde/Text/HordeDiff.php:85-156 | the original text has exactly `lcs()` + `countDeletedLines()` lines |
| HordeDiff.EmptyDiffIdentical | lib/Horde/Text/HordeDiff.php:130-192 | a script of identical copies reconstructs the same text on both sides |
| HordeDiff.TrimNewlines | lib/Horde/Text/HordeDiff.php:201-204 | the result has no `\n` and no `\r`, and a line without them is left unchanged |
| HordeDiff.TrimNewlinesPointwise | lib/Horde/Text/HordeDiff.php:201-204 | trimming works character by character: it distributes over concatenation and drops exactly the two line-break characters |
| HordeDiff.Check | lib/Horde/Text/HordeDiff.php:211-237 | success means both texts are reconstructed and no two neighbouring ops have the same class; a wrong original text is reported first |
| HordeDiff.CheckWellFormed | lib/Horde/Text/HordeDiff.php:211-237 | for a well-formed script the check passes exactly when the script reconstructs both texts and is optimal; the two reversal tests never reject it |
| Mapped.Reslice | lib/Horde/Text/Diff/Mapped.php:39-52 | each op's sides are replaced, in order, by the same number of real lines; the new texts are the real inputs cut to the script's lengths |
| Mapped.MappedDiff | lib/Horde/Text/Diff/Mapped.php:31-52 | the constructor fails exactly when a mapped input has a different length from its real input; otherwise a script of the mapped lines becomes a script of the real lines |
| Mapped.ReslicePreservesLengths | lib/Horde/Text/Diff/Mapped.php:39-52 | when the script covers the inputs, every op keeps its lengths |
| BlockBuilder.Input | lib/Horde/Text/Diff/ThreeWay/BlockBuilder.php:23-28 | input appends its lines to the original side and leaves the other two sides alone |
| BlockBuilder.Out1 | lib/Horde/Text/Diff/ThreeWay/BlockBuilder.php:30-35 | out1 appends its lines to the first final side and leaves the other two alone |
| BlockBuilder.Out2 | lib/Horde/Text/Diff/ThreeWay/BlockBuilder.php:37-42 | out2 appends its lines to the second final side and leaves the other two alone |
| BlockBuilder.IsEmpty | lib/Horde/Text/Diff/ThreeWay/BlockBuilder.php:44-47 | the builder is empty exactly when all three sides are empty |
| BlockBuilder.NewBuilder | lib/Horde/Text/Diff/ThreeWay/BlockBuilder.php:18-21 | a new builder is empty |
| BlockBuilder.Finish | lib/Horde/Text/Diff/ThreeWay/BlockBuilder.php:49-63 | finishing an empty builder yields nothing; otherwise it yields one block of the three sides and leaves an empty builder |
| BlockBuilder.AppendNothing | lib/Horde/Text/Diff/ThreeWay/BlockBuilder.php:23-42 | appending a falsy side changes nothing |
| ThreeWay.MergedOutput | lib/Horde/Text/Diff/ThreeWay.php:60-81 | the lines are the blocks' renderings in order, with conflict markers and truthy labels; the counter rises by the number of conflicting blocks |
| ThreeWay.RenderAllAppend | lib/Horde/Text/Diff/ThreeWay.php:60-81 | the rendered lines and the conflict count are built block by block: both distribute over concatenation of the block lists |
| ThreeWay.ConflictCountBound | lib/Horde/Text/Diff/ThreeWay.php:60-81 | the counter rises by at most the number of blocks, and stays put exactly when no block is a conflict |
| ThreeWayProofs.CleanRenderIsSide1 | lib/Horde/Text/Diff/ThreeWay.php:60-81 | without conflicts, rendering each block by its first side yields the first sides of the blocks in order |
| ThreeWayProofs.CleanMergeReadsSide1 | lib/Horde/Text/Diff/ThreeWay.php:60-154 | after the merge with the corrected `$norig`, a conflict-free output whose blocks render as their first side is exactly the first final text, and the counter does not move |
| ThreeWay.Diff3 | lib/Horde/Text/Diff/ThreeWay.php:85-154 | `_diff3` on two scripts of one origin; it has no contract of its own: ThreeWayProofs.Diff3CoversOrigin, Diff3ReconstructsSides, Diff3Succeeds, Diff3Alternates and Diff3CleanSide1, and ThreeWaySymmetry.Diff3Symmetric, state what it guarantees |
| ThreeWay.Run | lib/Horde/Text/Diff/ThreeWay.php:92-151 | the loop and the final flush; it has no contract of its own: its termination is ThreeWay.StepProgress, and its results are stated through Diff3 by the ThreeWayProofs rows |
| ThreeWay.StepProgress | lib/Horde/Text/Diff/ThreeWay.php:92-147 | a step that passes the Copy assertion keeps both scripts on the same remaining origin and strictly shrinks what is left, so the loop ends |
| ThreeWayProofs.Diff3CoversOrigin | lib/Horde/Text/Diff/ThreeWay.php:85-154 | the blocks' original sides, in order, are exactly the common original text |
| ThreeWayProofs.Diff3ReconstructsSides | lib/Horde/Text/Diff/ThreeWay.php:85-154 | with the corrected `$norig`, the blocks' first and second sides are exactly the two final texts |
| ThreeWayProofs.Diff3Succeeds | lib/Horde/Text/Diff/ThreeWay.php:103-104 | when no Copy op is empty, the `$ncopy > 0` assertion never fails |
| ThreeWayProofs.Diff3Alternates | lib/Horde/Text/Diff/ThreeWay.php:96-101 | no block is an empty change, and a change block is never next to another change block |
| ThreeWayProofs.StaleNorigDuplicates | lib/Horde/Text/Diff/ThreeWay.php:121-136 | as written, `O=[a], F1=[a], F2=[x,a]` merges to a change block followed by a copy, and the first side reads `a a` |
| ThreeWaySymmetry.Diff3Symmetric | lib/Horde/Text/Diff/ThreeWay.php:85-154 | merging the two scripts in the other order gives the same blocks with their two final sides exchanged, under either `$norig` rule, and fails exactly when the first order fails |
| ThreeWaySymmetry.Diff3SymmetricBlocks | lib/Horde/Text/Diff/ThreeWay.php:85-154 | block by block: both orders succeed together, with as many blocks, the same origins and the same copies, and side 1 of one order is side 2 of the other |
| ThreeWaySymmetry.SwapKeepsConflicts | lib/Horde/Text/Diff/ThreeWay.php:60-81 | when conflict detection ignores which side is which, the exchanged blocks count the same conflicts |
| ThreeWaySymmetry.StaleNorigMirrored | lib/Horde/Text/Diff/ThreeWay.php:121-136 | as written, the stale-`$norig` example in the other order gives the same change block with its sides exchanged |
| ThreeWayProofs.Diff3CleanSide1 | lib/Horde/Text/Diff/ThreeWay.php:85-154 | with the corrected `$norig`, when the first script is all Copies that keep their lines, every block's first side is its origin |
| ThreeWayProofs.RenderSide1Clean | lib/Horde/Text/Diff/ThreeWay.php:60-81 | blocks whose first side is their origin, when such blocks are no conflict and resolve to their second side, render as their second sides in order with no conflict counted |
| ThreeWayProofs.CleanMergeReadsSide2 | lib/Horde/Text/Diff/ThreeWay.php:60-154 | the clean merge: when the first text is the origin, the merged output with the corrected `$norig` is exactly the second text and no conflict is counted; Diff3Symmetric gives the case where the second text is the origin |
| ThreeWayProofs.StaleNorigDirtiesSide1 | lib/Horde/Text/Diff/ThreeWay.php:121-136 | as written, a first script that changes nothing still yields a block whose first side differs from its origin |
| ThreeWayProofs.ResetNorigMerges | lib/Horde/Text/Diff/ThreeWay.php:121-136 | with the corrected `$norig`, the same input yields `[x]` inserted before the shared `a`, and both sides reconstruct |
| XdiffEngine.Parse | lib/Horde/Text/Diff/Engine/XdiffEngine.php:52-70 | the loop yields one single-line op per line marked ` `, `+` or `-`, in order, and nothing for other lines |
| XdiffEngine.ParseOpsLines | lib/Horde/Text/Diff/Engine/XdiffEngine.php:52-70 | the parsed script's original text is the ` ` and `-` lines without their mark, and its final text is the ` ` and `+` lines without their mark |
| XdiffEngine.ParseOpsAppend | lib/Horde/Text/Diff/Engine/XdiffEngine.php:52-70 | parsing works line by line: it distributes over concatenation of the output |
| XdiffEngine.ParseOneLine | lib/Horde/Text/Diff/Engine/XdiffEngine.php:56-68 | a line yields an op exactly when it is non-empty and starts with one of the three marks |
| XdiffEngine.Classify | lib/Horde/Text/Diff/Engine/XdiffEngine.php:56-68 | a line yields an op exactly when it is non-empty and its mark is ` `, `+` or `-`; the op's original side is the line without its mark for ` ` and `-`, its final side for ` ` and `+`, and the other side is empty |
| XdiffEngine.TrimAll | lib/Horde/Text/Diff/Engine/XdiffEngine.php:33-38 | every line loses its line breaks, and a line without any is unchanged |
| XdiffEngine.XdiffTextSplits | lib/Horde/Text/Diff/Engine/XdiffEngine.php:33-38 | the joined text handed to xdiff splits back into exactly the trimmed lines |
| XdiffEngine.Diff | lib/Horde/Text/Diff/Engine/XdiffEngine.php:27-73 | the engine fails exactly when the extension is missing; otherwise it parses xdiff's output on the trimmed, joined texts |
| Hunks.Range | lib/Horde/Text/Diff/Renderer/Unified.php:34-39 | a range is non-empty with no space, and it shows a comma exactly when the length is not 1 |
| Hunks.RangeRoundTrip | lib/Horde/Text/Diff/Renderer/Unified.php:34-39 | every range reads back as the beginning and length it came from |
| Unified.HeaderRoundTrip | lib/Horde/Text/Diff/Renderer/Unified.php:32-41 | the `@@ -X +Y @@` header reads back as exactly its four numbers |
| Unified.BlockHeader | lib/Horde/Text/Diff/Renderer/Unified.php:32-41 | the `@@ -X +Y @@` header; it has no contract of its own: Unified.HeaderRoundTrip states that it reads back as its four numbers |
| Unified.Hook | lib/Horde/Text/Diff/Renderer/Unified.php:43-61 | the four hooks; they have no contract of their own: Unified.ChangedSplits states that `_changed` renders as `_deleted` then `_added` |
| Unified.ChangedSplits | lib/Horde/Text/Diff/Renderer/Unified.php:58-61 | anywhere in a hunk, a change renders the same as its deletion followed by its addition |
| Context.BlockHeader | lib/Horde/Text/Diff/Renderer/Context.php:36-46 | the header replaces the pending second block with the final side's header line |
| Context.EndBlock | lib/Horde/Text/Diff/Renderer/Context.php:48-51 | `_endBlock` returns the pending second block; it has no contract of its own: Context.HunkSecondBlock states what that block holds after a hunk |
| Context.Hook | lib/Horde/Text/Diff/Renderer/Context.php:53-74 | the four hooks; they have no contract of their own: Context.RunHooksBlocks states that over a hunk they return its original side and append its final side to the second block |
| Context.RunHooksBlocks | lib/Horde/Text/Diff/Renderer/Context.php:53-74 | the hooks return the original side of a hunk and append its final side to the pending second block |
| Context.HunkSecondBlock | lib/Horde/Text/Diff/Renderer/Context.php:36-74 | whatever the previous hunk left, `_endBlock` returns this hunk's final side under its own header |
| Context.HeaderRoundTrip | lib/Horde/Text/Diff/Renderer/Context.php:36-46 | the two header lines read back as exactly the two ranges |
| Inline.BlockHeaderIgnoresRanges | lib/Horde/Text/Diff/Renderer/Inline.php:70-90 | the block header does not depend on the ranges, and it is empty by default |
| Inline.BlockHeader | lib/Horde/Text/Diff/Renderer/Inline.php:87-90 | the configured header; it has no contract of its own: Inline.BlockHeaderIgnoresRanges states that it ignores the ranges and is empty by default |
| Inline.EncodedLinesText | lib/Horde/Text/Diff/Renderer/Inline.php:97-108 | at the lines level the text ends in `\n`; Inline.LinesTextSplits states that it splits back into the lines |
| Inline.Wrap | lib/Horde/Text/Diff/Renderer/Inline.php:110-124 | the prefix goes before the first line and the suffix after the last, and an empty list behaves as one empty line |
| Inline.Added | lib/Horde/Text/Diff/Renderer/Inline.php:97-116 | the encoded lines in one inserted span, joined by `\n` and ending with `\n` at the lines level, and concatenated otherwise |
| Inline.Deleted | lib/Horde/Text/Diff/Renderer/Inline.php:97-124 | the encoded lines in one deleted span, joined by `\n` and ending with `\n` at the lines level, and concatenated otherwise |
| Inline.LinesTextSplits | lib/Horde/Text/Diff/Renderer/Inline.php:103-104 | lines-level text ends in `\n`, and without that last newline it splits back into the lines |
| Inline.SplitOnWords | lib/Horde/Text/Diff/Renderer/Inline.php:180-198 | the scan yields the words of the NUL-free text with newlines escaped; together they spell the whole text, and none is empty when the escape is not |
| Inline.WordsConcat | lib/Horde/Text/Diff/Renderer/Inline.php:189-195 | the words concatenate back to the text they were cut from |
| Inline.WordsMaximal | lib/Horde/Text/Diff/Renderer/Inline.php:189-195 | each word is blanks then non-blanks, and the cut between two words falls where a non-blank is followed by a blank |
| Inline.MoveSharedSpaces | lib/Horde/Text/Diff/Renderer/Inline.php:136-143 | the prefix is the longest run of leading spaces shared by the two first lines, and both lines are what remains after it |
| Inline.Changed | lib/Horde/Text/Diff/Renderer/Inline.php:126-178 | at the characters level, a deletion then an insertion; at the words level, the shared leading spaces before them; at the lines level, the nested rendering with NUL turned back into `\n`, ending in `\n`: of the NUL-escaped words at the words level, or, with character splitting on, of the split NUL-escaped texts at the characters level |
| HordeString.Common | lib/Horde/HordeString.php:650-658 | the result is a prefix of both strings, and at its end one string has ended or the bytes differ |
| HordeString.CommonIsPrefix | lib/Horde/HordeString.php:650-658 | any longest common prefix equals the byte-by-byte common prefix |
| HordeString.PrefixIsCommon | lib/Horde/HordeString.php:650-658 | the byte-by-byte common prefix is the longest common one |
| HordeString.CommonUnique | lib/Horde/HordeString.php:650-658 | two strings have only one longest common prefix |
| HordeString.CommonSymmetric | lib/Horde/HordeString.php:652-657 | the common prefix does not depend on the order of the arguments |
| HordeString.CommonSelf | lib/Horde/HordeString.php:652-657 | a string's common prefix with itself is the whole string |
| HordeString.TrailCount | lib/Horde/HordeString.php:764-776 | a lead byte announces at most 3 trailing bytes, and announces some exactly when it is in C0-F7 |
| HordeString.ValidUtf8 | lib/Horde/HordeString.php:757-792 | the function as written accepts exactly the texts in which each byte above 0x80 is a C0-F7 lead followed by the announced number of 80-BF bytes within the text |
| HordeString.CheckUtf8 | lib/Horde/HordeString.php:761-789 | the loop, with the bound of its first test as a parameter, accepts exactly the texts in which each byte above the bound is a C0-F7 lead followed by the announced number of 80-BF bytes within the text |
| HordeString.ValidUtf8Corrected | lib/Horde/HordeString.php:757-792 | with the bound corrected to `$c > 127`, the function accepts exactly the texts in which each byte from 0x80 up is a C0-F7 lead followed by its 80-BF bytes |
| HordeString.StrayTrailAccepted | lib/Horde/HordeString.php:764 | as written, a lone 0x80 is accepted while a lone 0x81 or 0xBF is refused; the corrected bound refuses 0x80 too |
| HordeString.CorrectedRefusesStrayTrail | lib/Horde/HordeString.php:764-776 | with the corrected bound, no text that starts with a byte 80-BF is accepted |
| HordeString.CorrectedImpliesLax | lib/Horde/HordeString.php:764 | the correction only takes acceptance away: whatever the corrected check accepts, the check as written accepts |
| HordeString.ScanTrail | lib/Horde/HordeString.php:782-787 | when the do-while loop finishes, every trailing byte the lead announced lies inside the text and is in 80-BF; when it stops early, no text continuing from that lead byte is accepted |
| HordeString.StrictImpliesLax | lib/Horde/HordeString.php:757-792 | every text that is well-formed under section 4 of RFC 3629 is accepted, both as written and with the corrected bound |
| HordeString.LaxAcceptsMore | lib/Horde/HordeString.php:764-776 | a lone 0x80, the overlong C0 80, the surrogate ED A0 80 and the F5 lead are all accepted though not well-formed, and an F8 lead is refused |
| HordeString.TrimUtf8Bom | lib/Horde/HordeString.php:820-825 | the input is the result with or without the mark EF BB BF in front: the mark is removed when present and the input is returned unchanged otherwise |
| HordeString.TrimOneBom | lib/Horde/HordeString.php:820-825 | exactly one mark is removed, so a second mark stays |

## Left out

- Engine selection is not modelled. This covers choosing an engine by class name (lib/Horde/Text/HordeDiff.php:42-56), the `extension_loaded` checks, and the ThreeWay constructor's engine choice. The scripts are inputs, and whether xdiff is loaded is a boolean parameter.
- The native and string engines are not part of this model, so the longest-common-subsequence algorithm is not modelled. The scripts they would produce are inputs.
- `xdiff_string_diff` is a function parameter. Its output is taken as given.
- The base Renderer is not part of this model:
  - its hunk grouping and `render`;
  - its `_lines` formatter and the formatter's default prefix.
  The renderers' hooks take the formatter as a parameter. Inline's `_changed` takes the nested renderer's output as a parameter.
- Inline's `_startBlock` returns its header unchanged, so it has no separate model.
- Inline's `_encode` is a function parameter. It stands for `htmlspecialchars`.
- Inline's `preg_split('//u', …)` is a function parameter. It stands for that call as PHP defines it: without `PREG_SPLIT_NO_EMPTY` the list starts and ends with an empty piece, so `"ab"` gives `["", "a", "b", ""]`.
- `Inline.Changed`: when `preg_split('//u', …)` meets malformed UTF-8, PHP returns `false` and hands it to the native engine in place of a list. The parameter always returns a list, so this case is not modelled; the engine that would receive `false` is not part of this model.
- The three-way ops' `isConflict` and `merged` are function parameters. Their classes are not part of this model.
- The bodies of the Add, Copy and Change op classes are not part of this model. They are assumed to build the shapes Delete.php shows: `false` on the absent side and the given lines on the present ones.
- Mapped's parent class is not part of this model. It is assumed to compute a script of the mapped lines, so that script is an input.
- The Colored decorator of the Unified renderer is left out. It only wraps a colouring collaborator.
- The rest of `HordeString`, the array sort helper, translations and the exception classes are left out. The diff core does not depend on them.
- `trigger_error` in `_check` becomes a `Failure` value, because raising the error stops the function.
- ThreeWay.Diff3: `_diff3` is modelled only for scripts that share an original text. With two different original texts the PHP loop can run forever, so the model requires a shared origin.
- ThreeWayProofs.Diff3ReconstructsSides: this is stated for the corrected `$norig` rule only. The code as written breaks it; see Findings.
- ThreeWayProofs.Diff3CleanSide1: this is stated for the corrected `$norig` rule only. The code as written breaks it; ThreeWayProofs.StaleNorigDirtiesSide1 shows the input.
- ThreeWayProofs.CleanMergeReadsSide2: this takes as a premise that a block whose first side is its origin is no conflict and resolves to its second side. The ThreeWay\Op classes that decide this are not part of this model.

## Findings

| source | as written | input that shows it | evidently intended | confidence | as-written member | corrected member |
|---|---|---|---|---|---|---|
| lib/Horde/Text/Diff/ThreeWay.php:121-136 | `$norig` is set only when both ops have original lines. When only one does, the Copy branch splices with a stale value, or with an undefined one (null), which takes every remaining final line. | origin `[a]`, first text `[a]`, second text `[x, a]`. The first text's Copy loses its final line to the change block, and the following copy block repeats it, so the first side reads `a a`. | Nothing is consumed from a Copy op's final side unless original lines are consumed with it, so each side reconstructs its text. | not executed | ThreeWayProofs.StaleNorigDuplicates | ThreeWayProofs.ResetNorigMerges |
| lib/Horde/HordeString.php:764 | `if ($c > 128)` treats 0x80 as a byte that stands alone. The other bytes 81-BF, which can only follow a lead byte, are refused. | the one-byte text 0x80 is accepted as valid UTF-8, while 0x81 is refused. | every byte from 0x80 up must be a lead byte (`$c > 127`), so a stray 0x80 is refused like the other trailing bytes. | not executed; high, since 0x80 is a trailing byte under section 4 of RFC 3629 | HordeString.StrayTrailAccepted | HordeString.ValidUtf8Corrected |
