# MimixBox algorithms, modelled and proved in Dafny

MimixBox is a collection of small Unix tools. This project models the ones that hold real
algorithms or state machines and proves what they are for. `dafny verify dfyconfig.toml`
checks everything.

| files | what they model |
|---|---|
| `Bits`, `Lzw*` | the `.Z` codec: dictionary coder, its greedy phrases, growing code width, bit packing in blocks of eight codes, the compressor and decompressor objects, the round trip and exactly how far it goes |
| `DiffScript`, `DiffLcs`, `DiffChoice`, `DiffHunks`, `DiffUnified` | `diff`: the longest-common-subsequence table and walk, optimality, which of the shortest scripts is found, hunks of the normal format, grouping and headers of the unified format |
| `Sequences`, `Text`, `UnifiedParse`, `ParseLenient`, `Patch*`, `DiffPatch`, `DiffText`, `DiffTextRoundTrip` | `patch`: parser, applier, reverser, when hunks apply and when they crash, the run over all files, and `diff -u` piped into `patch` and `patch -R` |
| `Vi*` | the core of `vi`: a byte-driven modal state machine with escape sequences, counts, word motions, an undo stack, a register and search |
| `Levenshtein` | the edit distance behind applet suggestions |
| `Sed*` | `sed` addresses, ranges and commands in running programs, and the translation of basic regular expressions |
| `Xmodem` | the `rx` receiver, alone and against a retransmitting sender |
| `VersionSort`, `VersionNames` | the natural order of `ls -v` |
| `Cpio` | the newc archive writer and reader |

## How it is built

Code that changes things step by step is a class or a method with loops: the encoder and
decoder with their block buffers, the two rows of the edit distance, the editor object with
its fields, `sed`'s flags, the archive writer. Each is proved equal to a function of its
input or of its old state, and what the tools promise is proved about those functions: for
every input, every run, or every fate of the messages.

Inputs and outputs are byte or character sequences. Go's regular expressions and
`strings.EqualFold` are any predicate and any relation; a result that holds for all of them
holds for these. Numbers without a width of their own (counts, sizes, line numbers) are
unbounded; where the code cuts a number to 8, 16 or 32 bits the model does too, and so
where the numbers of a hunk header are read and counted down in 64 bits.

## Where the code does not do what it is meant to

* `.Z`: on a CLEAR the encoder writes only the used bytes of a block, but the decoder has
  read a whole block and drops the rest (`LzwClear.LostTail`). All prefixes of an input
  survive exactly if compressing it emits no CLEAR (`LzwClear.EveryPrefixRoundTrips`).
* `patch`: a deleted line that starts with two dashes and a blank is printed as what looks
  like the next file's header, and the hunk ends there. The round trip holds exactly
  without one, forwards and with -R (`DiffTextRoundTrip.DiffTextThenPatch`); in the worst
  case `patch` changes nothing and reports success (`DiffTextRoundTrip.DashesLost`).
* `patch`: hunks that go backwards make `applyHunks` index out of range
  (`PatchOrder.BackwardsText`), and exactly those do, on some file
  (`PatchOrder.ParsedStopsIffBackwards`).
* `vi`: the Delete key saves no state for undo (`ViUndo.DeleteNotUndone`); undoing
  everything gives the file back exactly if it never erased a byte while there was nothing
  to undo (`ViUndo.UndoAllRestoresFile`).
* `vi`: `string(b)` of a byte from 0x80 on has two bytes (`ViTyping.AccentTyped`), so typed
  text is in the file as typed exactly if it is ASCII (`ViTyping.TypedText`).
* `vi`: after an insertion the Escape is undecided until the next byte, so a capital O
  typed next is taken for part of a cursor key (`ViChanges.TwoInsertions`).
  `ViChanges.ChangesThenUndos` says exactly when undoing still restores everything.
* `vi`: a count with dd that goes past the end also deletes lines above the cursor
  (`ViCut.CutRemoves`), and what a counted dd took may not come back with p or P
  (`ViCut.BothCut`, exactly when: `ViCut.PutBack`).
* `cpio`: a name that ends in NULs loses them, and a file named like the trailer ends the
  archive (`Cpio.NamesLost`, exactly when: `Cpio.RoundTrip`).
* `lzw` decoder: a malformed stream can make the table walk go round for ever, an outcome
  the model calls Diverges (`LzwMalformed.EndlessFile`). It never does while each code
  names an entry the decoder has or is about to make, and behind any other code it can
  (`LzwMalformed.ExactlyKnown`).

## Model

| member | source | states |
|---|---|---|
| LzwCodes.DecodeEncode | internal/applets/archival/lzw/lzw.go:46-79 | for every byte string, the decoder's table loop fed with exactly the codes the encoder emits writes that string: KwKwK codes, a full dictionary, CLEAR and the restart after it included |
| LzwCodes.CatchUp | internal/applets/archival/lzw/lzw.go:308-332 | the decoder's tables are the encoder's dictionary without its newest entry; learning one code makes them the whole dictionary and yields the phrase the code stands for, also when that code is the missing entry |
| LzwCodes.ExpandEncodeFrom | internal/applets/archival/lzw/lzw.go:48-79 | the same in the middle of a run: from tables one entry behind, what is left of the input comes out behind the phrase matched so far |
| LzwCodes.ExpandFresh | internal/applets/archival/lzw/lzw.go:290-306 | after a CLEAR the decoder, too, starts over in step with an empty dictionary |
| LzwGreedy.EncodeIsGreedy | internal/applets/archival/lzw/lzw.go:46-79 | the codes of an input are exactly these: between two CLEARs the input is cut into phrases, each the longest prefix of the rest among the single bytes and the extensions learnt before, and each code is its phrase's byte or the number of the extension; a CLEAR comes exactly behind 65280 phrases with input left |
| LzwGreedy.ExtensionsDiffer | internal/applets/archival/lzw/lzw.go:62-68 | the extensions learnt in a run, each phrase with the first byte of the next, are different from one another |
| LzwGreedy.OneCut | internal/applets/archival/lzw/lzw.go:54-61 | an input can be cut greedily in one way only |
| LzwGreedy.RunLongest | internal/applets/archival/lzw/lzw.go:54-64 | when the encoder emits a code, no longer phrase is known at that place |
| LzwPacking.PackedBits | internal/applets/archival/lzw/lzw.go:108-122 | the packed bytes, read bit by bit from the lowest, are the code bits followed by less than a byte of zeros |
| LzwPacking.PackedUnique | internal/applets/archival/lzw/lzw.go:163-171 | bytes that unpack to given bits and their padding are the packed ones, so a bit-level account of the file determines it |
| LzwPacking.NextWidth | internal/applets/archival/lzw/lzw.go:130-137 | the width grows exactly when the dictionary has outgrown it, and only after a multiple of eight codes, so every change falls between two blocks |
| LzwPacking.WidthFits | internal/applets/archival/lzw/lzw.go:130-137 | every code in use fits the width it is written in |
| LzwPacking.WidthLeast | internal/applets/archival/lzw/lzw.go:130-137 | and in no narrower width of at least nine bits |
| LzwEncoder.Encoder.constructor | internal/applets/archival/lzw/lzw.go:32-37 | a new encoder has written the three header bytes and has an empty block and dictionary |
| LzwEncoder.Encoder.ResetDict | internal/applets/archival/lzw/lzw.go:96-102 | an empty dictionary and the initial width, between two blocks |
| LzwEncoder.Encoder.ClearBuf | internal/applets/archival/lzw/lzw.go:155-160 | an empty block of sixteen zero bytes |
| LzwEncoder.Encoder.FlushBlock | internal/applets/archival/lzw/lzw.go:143-153 | the bits of a partial block are written, padded with zeros to whole bytes only, and the block is empty |
| LzwEncoder.Encoder.PutBits | internal/applets/archival/lzw/lzw.go:108-113 | the block holds the bits of the code behind those it held; no bit is set outside the sixteen bytes |
| LzwEncoder.Encoder.PutCode | internal/applets/archival/lzw/lzw.go:107-122 | a code is appended to all bits put so far, and every eighth one writes the block |
| LzwEncoder.Encoder.Output | internal/applets/archival/lzw/lzw.go:106-139 | the bits of the code are appended, in the width before the call; the width grows by the rule; a CLEAR or a wider code empties the block |
| LzwEncoder.Encoder.Finish | internal/applets/archival/lzw/lzw.go:163-171 | the bytes written are all bits put, padded with zeros to a whole byte |
| LzwEncoder.Emit | internal/applets/archival/lzw/lzw.go:62-64 | a code other than CLEAR adds nothing but its bits, because the block is empty whenever the width grows |
| LzwEncoder.EmitClear | internal/applets/archival/lzw/lzw.go:69-72 | a CLEAR is the first code of a block of 16-bit codes and leaves the encoder as it was at the start |
| LzwEncoder.EmitPhrase | internal/applets/archival/lzw/lzw.go:62-74 | the phrase's code, then either a new dictionary entry or a CLEAR with an empty dictionary; that it is the longest known phrase is `LzwGreedy.RunLongest` |
| LzwEncoder.Compress | internal/applets/archival/lzw/lzw.go:28-80 | the file is the header and the packed bits of the codes of the dictionary algorithm, each in the width its place in the run calls for; which codes these are is `LzwGreedy.EncodeIsGreedy` |
| LzwDecoder.Decoder.constructor | internal/applets/archival/lzw/lzw.go:191-218 | a decoder with the initial width at the start of the codes |
| LzwDecoder.Decoder.Fill | internal/applets/archival/lzw/lzw.go:226-243 | the next block of at most as many bytes as a code has bits, in the new width, or the end |
| LzwDecoder.Decoder.ReadCode | internal/applets/archival/lzw/lzw.go:225-255 | the reader's state and the code, or the end of the stream, as the value-level reader has them |
| LzwDecoder.Decoder.GatherBits | internal/applets/archival/lzw/lzw.go:247-252 | the bits at the reader's place as a number; no byte outside the block is read |
| LzwDecoder.Decoder.Unstack | internal/applets/archival/lzw/lzw.go:315-320 | the bytes of the code's phrase from last to first, if the table's chain leads to a byte at all |
| LzwDecoder.Decoder.WriteStack | internal/applets/archival/lzw/lzw.go:321-325 | the stack is written from its end |
| LzwDecoder.Decoder.Enter | internal/applets/archival/lzw/lzw.go:327-331 | one more table entry while there is room |
| LzwDecoder.Decoder.Run | internal/applets/archival/lzw/lzw.go:212-334 | what is written is the expansion of the codes the reader yields, and it ends where they end |
| LzwDecoder.Decompress | internal/applets/archival/lzw/lzw.go:174-196 | the outcome for every byte string: the output, a bad header, an unsupported width, or a chain of table entries that never ends |
| LzwRoundTrip.EmittedCode | internal/applets/archival/lzw/lzw.go:46-79 | each code the encoder emits before a CLEAR is a byte or one of the entries made so far |
| LzwRoundTrip.BetweenBlocks | internal/applets/archival/lzw/lzw.go:226-243 | in step with the encoder, the decoder refills exactly after every eighth code, in the width of the next code |
| LzwRoundTrip.ReadOne | internal/applets/archival/lzw/lzw.go:225-255 | the decoder reads code k in the width in which the encoder wrote code k, at the same bit, and gets it |
| LzwRoundTrip.ReadPacked | internal/applets/archival/lzw/lzw.go:225-255 | from a packed run without CLEAR the decoder reads exactly its codes; the zero padding is never read as one more |
| LzwRoundTrip.RoundTrip | internal/applets/archival/lzw/lzw.go:28-80 | decompressing what was compressed gives back every input whose compression emits no CLEAR |
| LzwClear.ReadUpToClear | internal/applets/archival/lzw/lzw.go:262-267 | when a CLEAR is followed by up to twelve codes, the decoder reads up to the CLEAR and nothing behind it |
| LzwClear.LostTail | internal/applets/archival/lzw/lzw.go:143-153 | such a stream decompresses to the input before the CLEAR only: an input for which the round trip fails |
| LzwClear.EveryPrefixRoundTrips | internal/applets/archival/lzw/lzw.go:66-73 | all prefixes of an input survive compressing and decompressing if and only if compressing the input emits no CLEAR |
| LzwClear.SafeLengths | internal/applets/archival/lzw/lzw.go:66-73 | every input of up to 65280 bytes survives; every input of more than 2130771840 bytes has a prefix that does not |
| LzwWalk.WalkLimitExact | internal/applets/archival/lzw/lzw.go:315-318 | the walk through the table leaves it within 65536 steps or never, so the model's bound on the walk changes no outcome |
| LzwMalformed.KnownDecodes | internal/applets/archival/lzw/lzw.go:308-332 | in either mode and for every maximal width, the decoder comes to an end on every sequence of codes each of which names an entry it has, or behind the first the one it is about to make |
| LzwMalformed.KnownDecompresses | internal/applets/archival/lzw/lzw.go:212-334 | so decompressing a file ends whenever the codes it holds are such |
| LzwMalformed.CodesFit | internal/applets/archival/lzw/lzw.go:225-255 | whatever the bytes, no code read from a file is wider than its header allows |
| LzwMalformed.UnknownDiverges | internal/applets/archival/lzw/lzw.go:308-332 | whatever the tables hold after known codes, one code that names no such entry can be followed by codes that do, so that the table walk never ends |
| LzwMalformed.ExactlyKnown | internal/applets/archival/lzw/lzw.go:308-332 | the condition is exact: the codes all name such entries if and only if the decoder comes to an end on each of their prefixes whatever such codes follow it |
| LzwMalformed.EndlessFile | internal/applets/archival/lzw/lzw.go:315-318 | a file of seven bytes, three times the code 257, on which decompressing never ends |
| DiffLcs.FillCell | internal/applets/editors/diff/diff.go:158-164 | one cell of the table: the length of a longest common subsequence of the two rests |
| DiffLcs.LcsTable | internal/applets/editors/diff/diff.go:150-166 | every cell of the table is the length of a longest common subsequence of the two rests |
| DiffLcs.DiffLines | internal/applets/editors/diff/diff.go:142-191 | the ops are those of the walk along longest common subsequences, deletes before inserts on a tie, as `DiffChoice.OnlyPreferred` has it |
| DiffLcs.CommonBound | internal/applets/editors/diff/diff.go:156-166 | no common subsequence, under any relation between lines, is longer than the table says |
| DiffLcs.DiffOptimal | internal/applets/editors/diff/diff.go:142-191 | for any relation between lines the ops are an edit script from a to b, as many lines are kept as a longest common subsequence has, and no edit script has fewer deletes and inserts |
| DiffChoice.OnlyPreferred | internal/applets/editors/diff/diff.go:168-190 | for any relation between lines the ops are the only script that is a shortest one, keeps two related lines wherever it meets them, and inserts only where no script as short that begins alike deletes |
| DiffChoice.DeviatingIsLonger | internal/applets/editors/diff/diff.go:174-182 | where the ops insert, a script that begins alike and deletes has more changes |
| DiffScript.ReplayReaches | internal/applets/editors/diff/diff.go:168-190 | replaying an edit script on a leaves b, line by line equal or related as the comparison has it, and b itself if lines are compared exactly |
| DiffHunks.TakeRun | internal/applets/editors/diff/format.go:32-41 | one run of changes with all its deleted and inserted indices, up to the next equal line |
| DiffHunks.CollectHunks | internal/applets/editors/diff/format.go:24-44 | one hunk for each maximal run of changes, in order |
| DiffHunks.RunConsecutive | internal/applets/editors/diff/format.go:33-40 | in a run the deleted and the inserted indices are each consecutive, however deletes and inserts mix |
| DiffHunks.CollectSplices | internal/applets/editors/diff/format.go:24-44 | the hunks are ordered and apart, start where they say, and replacing the deleted range of each by its inserted range turns a into b |
| DiffUnified.ChangedOps | internal/applets/editors/diff/format.go:113-119 | exactly the indices of changed ops, in order |
| DiffUnified.GroupUnified | internal/applets/editors/diff/format.go:112-138 | the groups are ordered and do not touch, each op lies in a group exactly if a change is within three ops of it |
| DiffUnified.OneGrouping | internal/applets/editors/diff/format.go:112-138 | that description has only one solution, so it determines the groups |
| DiffUnified.OutsideEqual | internal/applets/editors/diff/format.go:127-135 | ops outside all groups are equal lines |
| DiffUnified.ChangedInOneGroup | internal/applets/editors/diff/format.go:112-138 | every changed op lies in exactly one group |
| DiffUnified.ThreeLinesAround | internal/applets/editors/diff/format.go:112-138 | an op is shown in some group if and only if a change is at most three ops away from it |
| DiffUnified.UnifiedRange | internal/applets/editors/diff/format.go:141-164 | starts and lengths of the group's lines in both files, 0 as the start of a side that has none |
| DiffUnified.HeaderMatches | internal/applets/editors/diff/format.go:141-164 | the header's starts and lengths name exactly the slices of a and b that the group covers |
| PatchApply.ApplyHunkBody | internal/applets/editors/patch/parse.go:166-183 | what one hunk's body does: the lines put out and how far it got, the mismatch, or the empty line the code would crash on |
| PatchApply.ApplyHunks | internal/applets/editors/patch/parse.go:151-188 | the result for every file and hunk list: the patched lines, a hunk beyond the end, a mismatch, or a hunk that goes back and makes the code crash; one less than the least 64-bit start is the greatest number |
| PatchApply.PatchedFile.ReverseHunks | internal/applets/editors/patch/parse.go:131-148 | every hunk is turned around in place: starts and lengths swapped, plus and minus swapped |
| PatchApply.ReverseInvolution | internal/applets/editors/patch/parse.go:131-148 | reversing twice changes nothing |
| PatchApply.UndoBody | internal/applets/editors/patch/parse.go:166-183 | a reversed body takes the lines the body has put out back to those it consumed |
| PatchApply.Undo | internal/applets/editors/patch/parse.go:131-188 | for every hunk list with consistent positions in both files that applies to a and gives b, the reversed list applies to b and gives a |
| PatchMeaning.BodyApplies | internal/applets/editors/patch/parse.go:166-183 | a body applies if and only if the lines it names stand at its place, and then it replaces them by those it leaves |
| PatchMeaning.BodyFails | internal/applets/editors/patch/parse.go:169-178 | if it does not, the error names the first line of the file that is not as the body says |
| PatchMeaning.AppliesIff | internal/applets/editors/patch/parse.go:151-188 | a file patch applies if and only if each hunk, behind the one before it, finds the lines it names in their place; then these are replaced and nothing else is |
| PatchMeaning.ParsedAppliesIff | internal/applets/editors/patch/parse.go:26-188 | the same for whatever is read from a text, applied as it is or reversed |
| PatchOrder.StopsIffBackwards | internal/applets/editors/patch/parse.go:151-165 | hunks with tagged lines make the code crash on some file if and only if one of them starts before the end of the old lines of its predecessor; a body line never does |
| PatchOrder.ParsedStopsIffBackwards | internal/applets/editors/patch/parse.go:151-188 | the same for whatever is read from any text, applied as it is or reversed |
| PatchOrder.DiffInOrder | internal/applets/editors/patch/parse.go:155-165 | the hunks of diff -u are in order, so they crash on no file |
| PatchOrder.BackwardsText | internal/applets/editors/patch/parse.go:155-165 | a text with two hunks, the second before the first, and a file of two lines on which it crashes |
| DiffPatch.BodyApplies | internal/applets/editors/patch/parse.go:166-183 | the printed lines of a group apply at its place, copying its equal lines and making its changes |
| DiffPatch.DiffThenPatch | internal/applets/editors/patch/parse.go:151-188 | for all a and b, the hunks of diff -u applied to a give b, or for another comparison of lines a list that matches b line by line |
| DiffPatch.DiffThenPatchThenUndo | internal/applets/editors/patch/parse.go:131-188 | and the reversed hunks take the result back to a |
| UnifiedParse.BodyTagged | internal/applets/editors/patch/parse.go:71-98 | every line of a parsed body starts with a blank, a minus or a plus |
| UnifiedParse.ReadBody | internal/applets/editors/patch/parse.go:71-98 | the body as far as the first line that ends it, empty lines as context lines and backslash lines left out |
| UnifiedParse.ReadHunk | internal/applets/editors/patch/parse.go:62-99 | one hunk and the line after it, or a bad header |
| UnifiedParse.ParseUnified | internal/applets/editors/patch/parse.go:26-59 | the result for every text: the patches or the first error |
| UnifiedParse.ParsedTagged | internal/applets/editors/patch/parse.go:26-59 | no parsed hunk has an empty body line; what that means for applying it is `PatchOrder.ParsedStopsIffBackwards` |
| ParseLenient.JunkSkipped | internal/applets/editors/patch/parse.go:31-57 | lines that are neither file nor hunk headers make no difference between file patches |
| ParseLenient.FirstHeader | internal/applets/editors/patch/parse.go:31-57 | a text without headers holds no patch; a hunk before any file header and a --- line without a +++ line are errors |
| ParseLenient.BadHeaderFails | internal/applets/editors/patch/parse.go:102-127 | a hunk header that is too short, or whose ranges are no numbers, makes the whole text an error |
| ParseLenient.BodyRead | internal/applets/editors/patch/parse.go:71-98 | blank context lines that have lost their blank and lines that begin with a backslash do not change the body that is read |
| DiffText.WriteHunk | internal/applets/editors/diff/format.go:94-107 | one hunk as text: the header line and the tagged lines |
| DiffText.WriteGroups | internal/applets/editors/diff/format.go:94-107 | all hunks as text, in order |
| DiffText.WriteUnified | internal/applets/editors/diff/format.go:86-108 | the whole text for an edit script: nothing without changes, otherwise two name lines and the hunks of the groups |
| DiffText.RangeReadBack | internal/applets/editors/patch/parse.go:116-127 | a printed start and length are read back |
| DiffText.LengthLeftOut | internal/applets/editors/diff/format.go:167-172 | the length of a range is printed if and only if it is not 1 |
| DiffText.HeaderReadBack | internal/applets/editors/patch/parse.go:102-113 | a printed hunk header is read back with its four numbers |
| DiffTextRoundTrip.ParsePrinted | internal/applets/editors/patch/parse.go:26-99 | printed hunks are read back as they were, in one file patch with trimmed names, if and only if no body line looks like a file header |
| DiffTextRoundTrip.BodyCutShort | internal/applets/editors/patch/parse.go:77-79 | a hunk's body ends before its first line that looks like a file header |
| DiffTextRoundTrip.MisreadLosesEdits | internal/applets/editors/patch/parse.go:26-99 | if a body line looks like a file header, parsing fails or finds several files, with fewer added and removed lines in all than were printed |
| DiffTextRoundTrip.DiffTextThenPatch | internal/applets/editors/patch/patch.go:88-108 | for files that differ, any names, options and other files: the text of diff -u given to patch turns a into b, and given to patch -R turns b into a, if and only if diff deletes no line that starts with two dashes and a blank; then no other file changes and the exit status is 0, and otherwise the file ends up different, whatever else is read from the text and applied to it |
| DiffTextRoundTrip.DiffTextThenPatchAlike | internal/applets/editors/patch/parse.go:26-99 | under any comparison, as for -i, patch reads one file patch, and one that takes a to a list that matches b line by line, if and only if diff makes no such deletion |
| DiffTextRoundTrip.DashesLost | internal/applets/editors/patch/parse.go:34-43 | two files of one line each, whose difference patch takes for the names of a second file: it changes nothing and reports success |
| PatchRun.PatchFile | internal/applets/editors/patch/patch.go:89-106 | one file patch: reversed if asked, applied to the file it names; a missing file or a mismatch is a failure that leaves all files alone, a hunk that goes back stops the program; what this means for a run is `PatchMeaning.RunExplained` |
| PatchRun.RunPatch | internal/applets/editors/patch/patch.go:68-112 | files and exit status after the whole text: each file patch in turn, to the operand's file or the one it names |
| PatchMeaning.RunExplained | internal/applets/editors/patch/patch.go:89-111 | the file patches are tried in order until one crashes; exactly those that apply change files, each only its own, and the run has failed if and only if one was rejected, for a missing file or hunks that do not apply |
| PatchMeaning.SucceedsIff | internal/applets/editors/patch/patch.go:68-111 | a run neither fails nor crashes if and only if the text holds file patches and all of them apply one after the other; a text that cannot be read or holds none changes nothing and fails |
| PatchMeaning.StripsDirectories | internal/applets/editors/patch/patch.go:121-135 | -pN takes N directories off a name, and all of one with fewer |
| PatchMeaning.TimeStampDropped | internal/applets/editors/patch/patch.go:121-131 | what stands behind a tab is no part of the name |
| PatchMeaning.NamesChosen | internal/applets/editors/patch/patch.go:81-97 | an operand names the file; without one it is the new name, and with -R the old one |
| PatchRun.RunMoves | internal/applets/editors/patch/patch.go:88-106 | a run brings no file nearer to any list of lines than its hunks have lines to add and remove |
| PatchRun.ParsedEdits | internal/applets/editors/patch/parse.go:26-59 | no more lines to add and remove are read than the text has lines that start with a plus or a minus |
| PatchDistance.ApplyMoves | internal/applets/editors/patch/parse.go:151-188 | hunks that apply change the least number of deletes and inserts to any list of lines by at most the number of their own |
| Levenshtein.Min | internal/applets/applet.go:245-254 | the least of three numbers |
| Levenshtein.FillRow | internal/applets/applet.go:229-239 | the next row of distances from the row before, in place |
| Levenshtein.Distance | internal/applets/applet.go:214-243 | two rows that change places compute the recurrence for the whole strings |
| Levenshtein.NoShorterScript | internal/applets/applet.go:214-243 | no sequence of single-rune insertions, deletions and substitutions from a to b is shorter than the result |
| Levenshtein.ShortestScript | internal/applets/applet.go:214-243 | some sequence is as short as the result |
| Levenshtein.Metric | internal/applets/applet.go:214-243 | the result is 0 for equal strings only, symmetric, and satisfies the triangle inequality |
| ViUndo.CursorStaysInBuffer | internal/applets/editors/vi/editor.go:81-119 | after any bytes there is a line, the cursor is in the buffer, outside insert mode on a byte of its line if it has any, and so it is in every saved state; the types of all operations say that nothing indexes out of range on the way |
| ViKeys.Feed | internal/applets/editors/vi/editor.go:81-119 | one byte in any state: escape sequences are decoded first, in every mode; the cursor rests outside insert mode and insert mode has a saved state to go back to |
| ViKeys.DecodeCsi | internal/applets/editors/vi/editor.go:156-175 | only the Delete key changes text; all other sequences at most move the cursor |
| ViKeys.Dispatch | internal/applets/editors/vi/editor.go:122-133 | a key leaves the undo stack alone, puts the buffer and cursor before it on top, or restores the newest entry; outside insert mode text changes only with the stack |
| ViKeys.Times | internal/applets/editors/vi/editor.go:342-346 | repeating changes nothing but the buffer and its mark, and a repeated motion no text |
| ViKeys.Undo | internal/applets/editors/vi/editor.go:368-379 | the newest saved buffer and cursor are back exactly |
| ViUndo.StackStep | internal/applets/editors/vi/editor.go:81-119 | every byte leaves the undo stack alone, saves, or restores, and unmarked text is unchanged text |
| ViUndo.UndoMany | internal/applets/editors/vi/editor.go:368-379 | n times u restores the n-th newest saved buffer and cursor and the saved states before them, or the oldest if there are not as many |
| ViUndo.UndoRestores | internal/applets/editors/vi/editor.go:361-379 | from any state, whatever is typed after the byte that starts a change, as long as no u reaches behind it, as many u as there are saved states since restore lines and cursor exactly |
| ViChanges.ChangeStacks | internal/applets/editors/vi/editor.go:263-292 | a counted x, p, P or dd, or an i, a, A, o or O session with any bytes but Escape in it, puts exactly one entry on the stack: lines and cursor before it |
| ViChanges.OneChange | internal/applets/editors/vi/editor.go:81-119 | behind an insertion, whose Escape is undecided, an O without a count is part of an escape sequence, and behind that everything up to the next Escape is typed: such a change saves nothing |
| ViChanges.ChangesThenUndos | internal/applets/editors/vi/editor.go:81-119 | any number of such changes followed by as many u: lines, cursor and stack are as before if and only if none was lost that way, or nothing had been saved before and the editor is not left inserting |
| ViChanges.AllTaken | internal/applets/editors/vi/editor.go:81-119 | none is lost if and only if none starts with an O right behind an insertion |
| ViChanges.TwoInsertions | internal/applets/editors/vi/editor.go:81-119 | i, a, Escape, O, Escape, u, u leaves the editor inserting |
| ViUndo.FirstLinesOf | internal/applets/editors/vi/editor.go:171-172 | over any run, the text that undoing everything comes back to stays the same unless the Delete key erases a byte while the stack is empty, and then it shrinks |
| ViUndo.UndoAllRestoresFile | internal/applets/editors/vi/editor.go:361-379 | for every stream of bytes, undoing everything gives back the loaded lines if and only if the Delete key never erased a byte while the stack was empty |
| ViUndo.DeleteNotUndone | internal/applets/editors/vi/editor.go:171-172 | the Delete key on a file of one byte: the file is empty and there is nothing to undo |
| ViUndo.CleanMeansUnchanged | internal/applets/editors/vi/editor.go:663-739 | in every reachable state that is not dirty the lines are those loaded |
| ViUndo.QuitLosesNothing | internal/applets/editors/vi/editor.go:611-627 | typing :q and Enter stops the editor if and only if it is not dirty, and then the lines are those loaded |
| ViUndo.QuitAtOnce | internal/applets/editors/vi/editor.go:611-627 | a file that was only loaded is not dirty, and :q stops at once |
| ViUndo.SaveThenLoad | internal/applets/editors/vi/editor.go:62-73 | saving and loading again gives the same lines in every reachable state |
| ViUndo.LoadThenSave | internal/applets/editors/vi/editor.go:62-73 | loading and saving adds a newline at the end where it is missing and changes nothing else |
| ViTyping.RuneTypes | internal/applets/editors/vi/editor.go:700-708 | an ASCII byte goes into the file at the cursor; any byte makes the file longer by the bytes it is stored as |
| ViTyping.SplitTypes | internal/applets/editors/vi/editor.go:710-721 | Enter puts a newline at the cursor |
| ViTyping.BackspaceTypes | internal/applets/editors/vi/editor.go:723-739 | Backspace takes away the byte before the cursor, also the newline before the line, and does nothing at the very start |
| ViTyping.TypingRefines | internal/applets/editors/vi/editor.go:583-592 | in insert mode, typing ASCII text, Enter and Backspace edits the file as one text with a gap at the cursor |
| ViTyping.TypedText | internal/applets/editors/vi/editor.go:700-708 | text typed in insert mode is in the file at the cursor, byte for byte, if and only if it is ASCII: string(b) of a byte from 0x80 on has two bytes |
| ViTyping.InsertedText | internal/applets/editors/vi/editor.go:274-292 | i, a, A, o or O, text, Escape puts that text into the file at the cursor, behind the byte under it, at the end of the line, on a new line below or on one above, and changes nothing else, if and only if it is ASCII |
| ViTyping.EscapeStepsBack | internal/applets/editors/vi/editor.go:137-143 | after the Escape the cursor is on the byte before it, or stays at the start of its line |
| ViTyping.RuneStored | internal/applets/editors/vi/editor.go:700-708 | any byte is stored as the UTF-8 form of the character with its number, and the cursor goes one byte on |
| ViTyping.AccentTyped | internal/applets/editors/vi/editor.go:700-708 | the byte 0xE9 typed into an empty file is two bytes there |
| ViCut.CutRemoves | internal/applets/editors/vi/editor.go:672-683 | n deletions remove the lines from the cursor on, past the end also lines above it, up to the last, which is emptied |
| ViCut.CountedCut | internal/applets/editors/vi/editor.go:317-320 | lines and cursor after dd with a count, and what it puts in the register |
| ViCut.YankedLines | internal/applets/editors/vi/editor.go:382-394 | the register reads back as the lines from the cursor on, as many as there are |
| ViCut.PutBack | internal/applets/editors/vi/editor.go:397-417 | after a counted dd one of p and P brings the text back if and only if the count stayed within the lines from the cursor on and did not take them all, with one exception of empty lines |
| ViCut.BothCut | internal/applets/editors/vi/editor.go:397-417 | 2dd on a file of two lines, which neither p nor P brings back |
| ViCut.YankThenPut | internal/applets/editors/vi/editor.go:382-417 | after yy with a count, p puts so many lines, or as many as there are, below the cursor's line and P above it, and yy changes nothing else |
| ViErase.EraseTypes | internal/applets/editors/vi/editor.go:663-670 | the file as one text loses the byte behind the cursor |
| ViErase.CountedErase | internal/applets/editors/vi/editor.go:263-273 | x with a count n takes n bytes from the cursor on out of its line, or, where there are not as many, those before it; all other lines are as before |
| ViErase.DeleteKey | internal/applets/editors/vi/editor.go:156-175 | the Delete key takes one byte away |
| ViErase.EraseMarksChange | internal/applets/editors/vi/editor.go:663-670 | x marks the file as changed unless the line is empty |
| ViErase.BackspaceMarksChange | internal/applets/editors/vi/editor.go:723-739 | Backspace marks the file as changed unless the cursor is at its start |
| ViMotions.GoesLeft | internal/applets/editors/vi/editor.go:631-635 | h with a count goes so many columns, or to the first |
| ViMotions.GoesRight | internal/applets/editors/vi/editor.go:637-641 | l with a count goes so many columns, or to the last |
| ViMotions.GoesDown | internal/applets/editors/vi/editor.go:643-648 | j with a count goes so many rows, or to the last, and as far left as the lines on the way are short |
| ViMotions.GoesUp | internal/applets/editors/vi/editor.go:650-655 | k with a count goes so many rows, or to the first, and as far left as the lines on the way are short |
| ViMotions.GoesToLine | internal/applets/editors/vi/editor.go:254-262 | G goes to the line of its count, or the last, and without a count to the last |
| ViMotions.GoesToTop | internal/applets/editors/vi/editor.go:312-329 | gg goes to the first byte |
| ViMotions.CursorKeys | internal/applets/editors/vi/editor.go:156-175 | the cursor keys, Home and End, in both kinds of escape sequence, go one step |
| ViMotions.HomeAndEnd | internal/applets/editors/vi/editor.go:156-175 | the other escape sequences of Home and End |
| ViPrompt.Commands | internal/applets/editors/vi/editor.go:611-627 | :w saves, :wq and :x save and stop, :q! stops, :q stops a file that is not dirty, and every other command does nothing |
| ViPrompt.SaveAndStop | internal/applets/editors/vi/editor.go:324-327 | ZZ saves and stops |
| ViPrompt.CommandCancelled | internal/applets/editors/vi/editor.go:135-154 | an Escape leaves the command prompt without doing anything |
| ViPrompt.SearchTyped | internal/applets/editors/vi/editor.go:294-308 | a slash and a pattern search forwards, a question mark backwards, n repeats the search in its direction and N in the other |
| ViPrompt.TakenBack | internal/applets/editors/vi/editor.go:594-609 | Backspace takes back the last byte typed at either prompt |
| ViCounts.CountInside | internal/applets/editors/vi/editor.go:200-231 | the count of a two-key command may as well stand between its keys |
| ViCounts.OtherKeyDrops | internal/applets/editors/vi/editor.go:312-329 | any other key behind the first of two is dropped with it |
| ViCounts.PutWithoutYank | internal/applets/editors/vi/editor.go:397-417 | with nothing yanked p and P change nothing |
| ViWords.WordForward | internal/applets/editors/vi/editor.go:432-457 | w goes to the nearest later start of a word in the line, else to the first in the line below, or to that line's end if it has none, and in the last line to the end |
| ViWords.WordBackward | internal/applets/editors/vi/editor.go:460-482 | b goes to the nearest earlier start of a word in the line, from column 0 in the line above, and to column 0 if there is none |
| ViWords.WordEnd | internal/applets/editors/vi/editor.go:485-512 | e goes to the nearest later end of a word in the line, else to the first in the line below, or to that line's end if it has none, and in the last line stays |
| ViSearch.SearchFindsNearest | internal/applets/editors/vi/editor.go:516-554 | a search goes to the nearest match ahead, or behind, around the end of the buffer, and nowhere if there is none; the part of the cursor's own line on the other side is never searched |
| ViEditor.Editor.constructor | internal/applets/editors/vi/editor.go:62-68 | the loaded file, in normal mode with nothing typed |
| ViEditor.Editor.ClampX | internal/applets/editors/vi/editor.go:657-661 | the cursor rests on its line |
| ViEditor.Editor.ClampY | internal/applets/editors/vi/editor.go:349-356 | the cursor row is in the buffer |
| ViEditor.Editor.MoveLeft | internal/applets/editors/vi/editor.go:631-635 | one column to the left |
| ViEditor.Editor.MoveRight | internal/applets/editors/vi/editor.go:637-641 | one column to the right, to the last byte at most |
| ViEditor.Editor.MoveDown | internal/applets/editors/vi/editor.go:643-648 | one row down, resting |
| ViEditor.Editor.MoveUp | internal/applets/editors/vi/editor.go:650-655 | one row up, resting |
| ViEditor.Editor.GoTo | internal/applets/editors/vi/editor.go:254-262 | the line with the count's number, or the last |
| ViEditor.Editor.SkipWord | internal/applets/editors/vi/editor.go:435-437 | past the word bytes |
| ViEditor.Editor.SkipSpace | internal/applets/editors/vi/editor.go:438-440 | past the white space |
| ViEditor.Editor.SkipToEnd | internal/applets/editors/vi/editor.go:491-493 | to the last byte of the word |
| ViEditor.Editor.MoveWordForward | internal/applets/editors/vi/editor.go:432-457 | the start of the next word, as `ViWords.WordForward` has it |
| ViEditor.Editor.MoveWordBackward | internal/applets/editors/vi/editor.go:460-482 | the start of the word before, as `ViWords.WordBackward` has it |
| ViEditor.Editor.MoveWordEnd | internal/applets/editors/vi/editor.go:485-512 | the end of the next word, as `ViWords.WordEnd` has it |
| ViEditor.Editor.SearchForward | internal/applets/editors/vi/editor.go:521-538 | the value-level forward search |
| ViEditor.Editor.SearchBackward | internal/applets/editors/vi/editor.go:539-553 | the value-level backward search |
| ViEditor.Editor.SearchExecute | internal/applets/editors/vi/editor.go:516-554 | the search in either direction; no pattern, no search |
| ViEditor.Editor.DeleteRune | internal/applets/editors/vi/editor.go:663-670 | one byte less under the cursor, marked as a change exactly if there was one; for the text this is `ViErase.EraseTypes` |
| ViEditor.Editor.DeleteLine | internal/applets/editors/vi/editor.go:672-683 | one line less, or the only one emptied |
| ViEditor.Editor.OpenBelow | internal/applets/editors/vi/editor.go:685-691 | an empty line below, in insert mode |
| ViEditor.Editor.OpenAbove | internal/applets/editors/vi/editor.go:693-698 | an empty line above, in insert mode |
| ViEditor.Editor.InsertRune | internal/applets/editors/vi/editor.go:700-708 | the bytes of string(b) before the cursor, which moves on by one |
| ViEditor.Editor.SplitLine | internal/applets/editors/vi/editor.go:710-721 | the line in two |
| ViEditor.Editor.Backspace | internal/applets/editors/vi/editor.go:723-739 | one byte less before the cursor, or the line joined to the one before; marked exactly if something changed |
| ViEditor.Editor.TakeSnapshot | internal/applets/editors/vi/editor.go:361-365 | buffer and cursor are on the stack |
| ViEditor.Editor.Undo | internal/applets/editors/vi/editor.go:368-379 | the newest saved buffer and cursor, and nothing on an empty stack |
| ViEditor.Editor.YankLines | internal/applets/editors/vi/editor.go:382-394 | the text of the lines from the cursor on, each with a newline |
| ViEditor.Editor.PasteBelow | internal/applets/editors/vi/editor.go:397-406 | the register's lines below the cursor's line |
| ViEditor.Editor.PasteAbove | internal/applets/editors/vi/editor.go:409-417 | the register's lines above it |
| ViEditor.Editor.TakeCount | internal/applets/editors/vi/editor.go:332-339 | the count, at least 1, and none is left |
| ViEditor.Editor.Once | internal/applets/editors/vi/editor.go:342-346 | one repeated operation |
| ViEditor.Editor.Repeat | internal/applets/editors/vi/editor.go:342-346 | the operation as often as asked |
| ViEditor.Editor.StartInsert | internal/applets/editors/vi/editor.go:274-292 | where the five insert keys start |
| ViEditor.Editor.MotionKey | internal/applets/editors/vi/editor.go:235-308 | what the keys that change no text do |
| ViEditor.Editor.Key | internal/applets/editors/vi/editor.go:233-308 | what a key of its own does in normal mode |
| ViEditor.Editor.CutLines | internal/applets/editors/vi/editor.go:318-320 | a saved state, the register filled, the lines deleted |
| ViEditor.Editor.HandlePending | internal/applets/editors/vi/editor.go:312-329 | what the second key of d, y, g and Z does, and that any other is dropped |
| ViEditor.Editor.FeedNormal | internal/applets/editors/vi/editor.go:214-309 | counts, two-key commands and keys in normal mode |
| ViEditor.Editor.FeedSearch | internal/applets/editors/vi/editor.go:564-579 | the search prompt |
| ViEditor.Editor.SearchAgain | internal/applets/editors/vi/editor.go:557-561 | n and N |
| ViEditor.Editor.RunExCommand | internal/applets/editors/vi/editor.go:611-627 | the five commands, and that :q does nothing with unsaved changes |
| ViEditor.Editor.FeedCommand | internal/applets/editors/vi/editor.go:595-608 | the command prompt |
| ViEditor.Editor.FeedInsert | internal/applets/editors/vi/editor.go:583-592 | insert mode |
| ViEditor.Editor.Dispatch | internal/applets/editors/vi/editor.go:122-133 | the byte goes to the current mode |
| ViEditor.Editor.HandleEsc | internal/applets/editors/vi/editor.go:137-151 | Escape on its own |
| ViEditor.Editor.DecodeArrow | internal/applets/editors/vi/editor.go:178-193 | cursor keys |
| ViEditor.Editor.DecodeCsi | internal/applets/editors/vi/editor.go:156-175 | Home, End, Delete and cursor keys |
| ViEditor.Editor.Feed | internal/applets/editors/vi/editor.go:81-119 | the whole state after one byte is the value-level one |
| ViEditor.Editor.Flush | internal/applets/editors/vi/editor.go:197-202 | a lone Escape counts, an unfinished sequence is dropped |
| ViEditor.Editor.FeedString | internal/applets/editors/vi/editor.go:206-211 | the whole state after any bytes is the value-level one; nothing is read after quitting |
| SedEditor.Editor.constructor | internal/applets/editors/sed/exec.go:361-365 | no range is active |
| SedEditor.Editor.Selected | internal/applets/editors/sed/exec.go:457-482 | selection and the new range flag of one command; other flags stay; what the addresses select is `SedLines.Matching`, `SedLines.LastLineOnly`, `SedLines.SelectsBetween` and `SedSelect.NumericRange` |
| SedEditor.Editor.RunCommands | internal/applets/editors/sed/exec.go:370-394 | what the commands do with one line: pattern space, output, flags, whether it is deleted or the program quits |
| SedEditor.Editor.Run | internal/applets/editors/sed/exec.go:368-403 | the output for all lines, up to a quit |
| SedSelect.SelectsRanges | internal/applets/editors/sed/exec.go:465-481 | a two-address command selects exactly the lines of its ranges, which are described without the flag: each from the first line that can start one after the range before to the first later line that can end it, or one line if a numeric end is not after the start |
| SedSelect.RangesOf | internal/applets/editors/sed/exec.go:465-481 | there is always such a list of ranges |
| SedSelect.OneList | internal/applets/editors/sed/exec.go:465-481 | and only one |
| SedSelect.NumericRange | internal/applets/editors/sed/exec.go:465-481 | with numbers n and m, n at least 1, the lines n to m are selected, or line n alone if m is not after it |
| SedRanges.RangesInProgram | internal/applets/editors/sed/exec.go:376-394 | in any program, a two-address command is selected on exactly the lines of its ranges over the pattern spaces it sees, up to the first line that an earlier command deletes or quits on before it gets there |
| SedRanges.PrintsOrDeletes | internal/applets/editors/sed/exec.go:368-403 | sed -n with a range and p prints the selected lines, and with d exactly the others remain |
| SedRanges.NumericSlice | internal/applets/editors/sed/exec.go:368-403 | sed -n 'n,mp' prints lines n to m and sed 'n,md' all others |
| SedLines.Matching | internal/applets/editors/sed/exec.go:484-496 | for any test, sed -n '/m/p' prints exactly the lines that pass it, in order, and sed '/m/d' the others |
| SedLines.LastLineOnly | internal/applets/editors/sed/exec.go:484-496 | sed -n '$p' prints the last line alone, and sed '$d' all others |
| SedLines.QuitsAtLine | internal/applets/editors/sed/exec.go:484-496 | sed 'nq' prints the first n lines |
| SedLines.QuitsAtMatch | internal/applets/editors/sed/exec.go:484-496 | sed '/m/q' prints up to the first line that passes |
| SedLines.Substitutes | internal/applets/editors/sed/exec.go:484-496 | a substitution rewrites the lines that pass and keeps the others; with -n and p it prints the rewritten lines where there was something to rewrite |
| SedLines.Sequence | internal/applets/editors/sed/exec.go:376-394 | on each line the second part of a program sees what the first has made of the line, unless that has deleted it or quit |
| SedLines.SelectsBetween | internal/applets/editors/sed/exec.go:376-394 | /m1/,/m2/ selects exactly the lines of ranges described by the two tests alone |
| SedLines.FromMatchOn | internal/applets/editors/sed/exec.go:376-394 | sed -n '/m/,$p' prints from the first line that passes on, and sed '/m/,$d' up to the line before it |
| SedRegex.Bre2Ere | internal/applets/editors/sed/exec.go:81-106 | the loop computes the translation |
| SedRegex.TranslatedTwice | internal/applets/editors/sed/exec.go:81-106 | translating twice gives the expression again, for every string |
| SedRegex.SameTokens | internal/applets/editors/sed/exec.go:77-80 | the translation reads in the extended syntax token for token as the original does in the basic one |
| SedRegex.SevenOperators | internal/applets/editors/sed/exec.go:85-103 | bare and escaped change places for the seven operators and for no other character |
| Xmodem.Checksum | internal/applets/console-tools/rx/rx.go:125-131 | the sum of all bytes modulo 256 |
| Xmodem.ReadPacket | internal/applets/console-tools/rx/rx.go:98-122 | the packet, or the first thing wrong with it |
| Xmodem.Run | internal/applets/console-tools/rx/rx.go:43-88 | file, replies and how the transfer ends, for every stream |
| Xmodem.WrittenInSequence | internal/applets/console-tools/rx/rx.go:78-85 | for every stream, what is written is the data of packets of the stream, in their order, numbered 1, 2, 3 and so on modulo 256 |
| Xmodem.ReceiveDelivers | internal/applets/console-tools/rx/rx.go:50-88 | packets that arrive whole are read back as they were sent |
| Xmodem.Lockstep | internal/applets/console-tools/rx/rx.go:78-85 | the receiver has written as many blocks as are confirmed to the sender or one more, over any number of wraps of the block number |
| Xmodem.ExactlyOnce | internal/applets/console-tools/rx/rx.go:43-88 | with a sender that repeats each block until an acknowledgement gets through, whichever are lost, the file holds at every moment the first blocks, each once and in order, and every packet is acknowledged |
| Xmodem.ReceivedIff | internal/applets/console-tools/rx/rx.go:57-88 | for every stream: the file is received if and only if the stream is whole packets, byte for byte with complement and checksum, each the next one or the one before it again, and then the end of the transmission |
| Xmodem.CancelledFails | internal/applets/console-tools/rx/rx.go:60-64 | a cancelled transfer fails; what came before is written and acknowledged, the cancelling is not |
| Xmodem.BrokenFails | internal/applets/console-tools/rx/rx.go:66-77 | a packet out of sequence, or anything that is no whole packet, ends the transfer in failure with the packets before it written |
| Xmodem.CompleteIff | internal/applets/console-tools/rx/rx.go:43-88 | the whole file is received if and only if as many acknowledgements get through as there are blocks |
| VersionSort.SkipDigits | internal/applets/fileutils/ls/ls.go:694-701 | the end of a run of digits |
| VersionSort.CompareRuns | internal/applets/fileutils/ls/ls.go:702-715 | two digit runs compare as the numbers they stand for, however long |
| VersionSort.IsLess | internal/applets/fileutils/ls/ls.go:711-714 | the order of strings byte by byte |
| VersionSort.VersionCompare | internal/applets/fileutils/ls/ls.go:688-736 | the two-index loop computes the lexicographic order of the names taken as numbers and other bytes |
| VersionSort.LessEntry | internal/applets/fileutils/ls/ls.go:533-557 | the comparison the entries are sorted by |
| VersionSort.Preorder | internal/applets/fileutils/ls/ls.go:688-736 | it is a total preorder, and 0 exactly for names with the same numbers and other bytes |
| VersionSort.StrictTotalOrder | internal/applets/fileutils/ls/ls.go:533-557 | with directories first and the name as tie-break it is a strict total order on entries with different names |
| VersionNames.NumbersDecide | internal/applets/fileutils/ls/ls.go:686-740 | names that differ in one number are in the order of the numbers, with or without leading zeros; with equal numbers what follows decides |
| VersionNames.CountedNames | internal/applets/fileutils/ls/ls.go:686-740 | so file2 comes before file10, for all names and numbers |
| VersionNames.WithoutDigits | internal/applets/fileutils/ls/ls.go:686-740 | without digits names are in the order of their bytes |
| VersionNames.PrefixFirst | internal/applets/fileutils/ls/ls.go:686-740 | a name comes before a longer one that begins with it |
| VersionNames.ListingOrder | internal/applets/fileutils/ls/ls.go:533-557 | grouped directories come first, then smaller numbers, and of names that only differ in leading zeros the one that is less as a string |
| Cpio.Writer.Pad | internal/applets/archival/cpio/cpio.go:157-163 | NULs up to a multiple of 4 |
| Cpio.Writer.WriteEntry | internal/applets/archival/cpio/cpio.go:129-154 | header, name, data and both paddings are appended |
| Cpio.Writer.CopyOut | internal/applets/archival/cpio/cpio.go:94-125 | all entries with inode numbers from 1 on, and the trailer |
| Cpio.ReadNext | internal/applets/archival/cpio/cpio.go:170-203 | one turn of the reading loop at any position: the end, the trailer, an entry and what is left, or the error |
| Cpio.CopyIn | internal/applets/archival/cpio/cpio.go:167-216 | the entries of every byte string and how reading ends |
| Cpio.FieldWord | internal/applets/archival/cpio/cpio.go:219-222 | a 32-bit number printed in eight hexadecimal digits is read back |
| Cpio.ReadBack | internal/applets/archival/cpio/cpio.go:129-216 | a written entry is read back with its mode, data and its name without trailing NULs, or taken for the trailer |
| Cpio.RoundTrip | internal/applets/archival/cpio/cpio.go:129-216 | for names and data whose lengths fit 32 bits, copying out and in gives every file back, in order, if and only if no name ends in a NUL or is the trailer's |
| Cpio.NamesLost | internal/applets/archival/cpio/cpio.go:183-194 | a file with the trailer's name hides all files behind it, and a NUL at the end of a name is lost |
| Cpio.EntriesHaveFields | internal/applets/archival/cpio/cpio.go:129-160 | the thirteen fields of entry k read back in their places: the inode number k + 1, mode, one link, time stamp and both sizes, and zeros |
| Cpio.Truncated | internal/applets/archival/cpio/cpio.go:170-203 | from an archive that was cut short come the first of its entries, as they are |
| Cpio.HeadersAligned | internal/applets/archival/cpio/cpio.go:157-163 | every header starts at a multiple of 4 |

## Left out

- Reading and writing errors of files and streams, cancellation, flags, help and messages: every input is a whole sequence.
- LzwRoundTrip.RoundTrip: byte streams with a CLEAR are characterised through prefixes only (`LzwClear.EveryPrefixRoundTrips`); what exactly a longer tail after a CLEAR decodes to is not modelled.
- `.Z` streams of other encoders that keep coding with a full dictionary: the decoder is modelled for every stream, but no round trip is stated for them.
- DiffTextRoundTrip.DiffTextThenPatch: stated for files that differ; without a difference diff prints nothing and patch is given no file.
- Two spellings of one file's name, `patch --dry-run`, and errors in writing a patched file: a name stands for one file, and a file is the list of lines that `splitLinesKeep` makes of it.
- The memory limit on the table of `diff`, the normal output format as text, and `patch` on standard input, where a line scanner strips carriage returns.
- Strings with invalid UTF-8 in `diff` and `patch`: a string is a sequence of characters there.
- SedRanges.RangesInProgram: the lines behind one that is deleted or quit on before it reaches the command; the flags from there on are modelled, but not put as ranges.
- `vi` terminal handling, redrawing, the file name and the status message; overflow of the count prefix.
- The copy that a saved state makes of the lines: lines are values in the model, so that sharing one would not show.
- SedRegex.SameTokens: bracket expressions, inside which neither syntax has these escapes.
- The parser of `sed` scripts, replacement templates and the numbered substitution: substitution is any rewriting of the pattern space.
- Xmodem.ExactlyOnce: packets arrive whole and only acknowledgements are lost; the receiver gives up on a damaged packet, which `Xmodem.Run` models and `Xmodem.WrittenInSequence` covers.
- The sorting algorithm of `ls` and its other sort keys; file modes and creation of files when `cpio` extracts.
- Applets that wrap system calls, and third-party codecs: nothing of their own to prove.
