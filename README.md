# simplate template core in Dafny

A model of the template core of simplate, a Go tool. The tool renders a
Go text/template against YAML or other input data, and can split one
template into several output files with FILE directives:

    text for standard output
    #FILE:out/{{.name}}.txt#
    content of that file
    #FILE#

The model covers four parts of `pkg/template`.

**The FILE-directive parser** (`parser.dfy`, `parser_proofs.dfy`, `parser_shapes.dfy`, `parser_blocks.dfy`)
- `Parser.ParseSegments` is the scanning loop over bytes. It keeps the
  cursor, the in-block flag, the block start and the segment list, and it
  patches the open File segment's content in place when the block closes.
- `Parser.FilterEmptyEdgeSegments` is the two-loop edge trimming.
- Both methods are proved equal to pure specifications: `Parse` (one call
  of `TurnAt` per loop turn) and `TrimEdges`.
- The lemmas prove:
  - the segments reassemble into the template byte for byte;
  - no segment contains a marker, and no file name contains a '#';
  - every error points at the marker that caused it;
  - the exact result for the template shapes the Go tests exercise;
  - each parse error, after any run of complete blocks, at its offset in
    the whole template. A run of complete blocks (`ParserBlocks.Chunked`)
    is a list of File segments, each after at most one non-empty Stdout
    segment, whose contents hold no marker and do not end in "#FILE" and
    whose names are not blank and hold no '#'.

**The file sinks** (`writer.dfy`, `writer_proofs.dfy`)
- `MemoryFileWriter` is a class holding an optional map, where None is
  Go's nil map.
- `DefaultFileWriter` is a class that writes through a class
  `FileSystem`. The file system holds a map from path to content, a set of
  directories, and the paths on which it refuses to create, write or rename.
- Each sink's effect is a pure function of its state (`MemoryWrite`,
  `DiskWrite`, `DiskSetBaseDir`). Each method is proved to end in the state
  its function gives.
- Go's `filepath.Join`, `Clean`, `Rel` and `Dir` are uninterpreted function
  values in `PathOps`.

**The template functions** (`functions.dfy`, `functions_proofs.dfy`)
- `unique` is a loop with a seen-set, proved equal to the first-occurrence
  deduplication `Dedup`.
- `envOrDefault` reads the environment, which is given as a map.
- Go's `any` is the tagged type `Value`. `reflect.Type.Comparable` is the
  predicate `Comparable`.

**The orchestration** (`executor.dfy`, `executor_proofs.dfy`)
- `AnyProvider` is modelled, and `ExecuteWithFiles` is a method that writes
  to an `Output` stream and to either sink.
- Rendering is a parameter `render(template, data)`. It yields either the
  rendered text or a failure carrying the partial output already written.
- The method is proved to end where the function `Run` says: the same
  result, output and sink state. It also returns a ghost trace of the
  calls it made to validators, `render` and `WriteFile`.
- The lemmas about `Run` state:
  - the fail-fast order of the steps;
  - which calls happen, and in what order;
  - what reaches the output;
  - that the sink ends as the in-order application of the writes in the
    trace.

Two behaviours of the code the model keeps:
- A provider that returns a nil value without an error does not abort
  `ExecuteWithFiles` (pkg/template/executor.go:154-157 checks only the
  error).
- `unique(nil)` returns nil, not an empty slice
  (pkg/template/functions.go:22-24).

Behaviour of the code that the model makes explicit:
- The file name of a directive ends at the first '#' after `#FILE:`. So a
  name never holds '#', and the nested-directive check on the name
  (pkg/template/parser.go:106-108) can never fire (`ParserShapes.OutsideNeverNested`).
- When the body of a block ends in "#FILE", the closing marker is found
  early. For example, in "#FILE:n##FILE#FILE#" the block closes at offset 8
  with an empty body, and "FILE#" becomes standard-output text. So the
  single-file result needs a body that does not end in "#FILE"
  (`ParserShapes.ParseSingleFile`). Likewise, `#FILE:name#FILE#` (the '#'
  after the name forgotten) reports an unclosed block
  (`ParserBlocks.ParseSwallowedClose`).
- A non-empty template never scans to an empty segment list, so the branch
  at pkg/template/parser.go:146-148 is dead (`ParserProofs.RawSegmentsNonEmpty`).
- `MemoryFileWriter` applies no ".." check. `MemoryFileWriter.SetBaseDir("")`
  stores `Clean("")`, which is "." in Go, and from then on names are joined
  with it.
- The error of `os.Remove` after a failed rename is ignored.

## Model

| member | source | states |
|---|---|---|
| ByteStrings.Index | pkg/template/parser.go:57-58 | `strings.Index`: the offset of the first occurrence, with no occurrence before it; -1 exactly when there is none |
| Parser.OutsideTurn | pkg/template/parser.go:75-120 | a turn outside a block that goes on has advanced the cursor and is inside a block, with the File segment last |
| Parser.OpenTurn | pkg/template/parser.go:81-120 | the handling of an opening marker, when it goes on, advances past the name's '#' and opens a block |
| Parser.InsideTurn | pkg/template/parser.go:121-138 | a turn inside a block that goes on has advanced past the closing marker and left the block |
| Parser.TurnAt | pkg/template/parser.go:55-139 | every turn of the scan that goes on moves `pos` strictly forward, the loop's termination measure |
| Parser.ParseSegments | pkg/template/parser.go:44-152 | the scanning loop returns exactly `Parse` of the template: the segments or the first error |
| Parser.OutsideStep | pkg/template/parser.go:75-120 | one loop turn outside a block, performed on the loop variables, ends as `OutsideTurn` says |
| Parser.OpenStep | pkg/template/parser.go:81-120 | the opening-marker branch ends as `OpenTurn` says: an error, or the text before it and the new File segment appended |
| Parser.InsideStep | pkg/template/parser.go:121-138 | one loop turn inside a block, including the in-place patch of the last segment's content, ends as `InsideTurn` says |
| Parser.SettleSegments | pkg/template/parser.go:141-151 | after the loop: the empty-list fallback or the trimmed segments, as `Parse` says |
| Parser.FilterEmptyEdgeSegments | pkg/template/parser.go:157-189 | the two trimming loops return `TrimEdges` of the segments |
| ParserProofs.OutsideSound | pkg/template/parser.go:61-120 | a turn outside a block keeps the scan invariant: consumed text equals the template prefix, and all segments are well formed; any error it stops with is explained |
| ParserProofs.InsideSound | pkg/template/parser.go:121-138 | a turn inside a block keeps the scan invariant, and its unclosed or nested error names the right marker |
| ParserProofs.OutsideOpenShape | pkg/template/parser.go:81-119 | an opening marker is consumed with its name and '#'; the text before it holds no marker and the name no '#' |
| ParserProofs.ScanSound | pkg/template/parser.go:55-143 | from any state satisfying the invariant, the scan ends with segments that reassemble into the template, or with an explained error |
| ParserProofs.RawSegmentsSound | pkg/template/parser.go:44-143 | before trimming, flattening the segments (File as "#FILE:"+name+"#"+content+"#FILE#") gives back the template byte for byte; no content holds a marker and no name a '#' |
| ParserProofs.RawSegmentsNonEmpty | pkg/template/parser.go:146-148 | a non-empty template that scans successfully yields at least one segment |
| ParserProofs.ParseErrorExplained | pkg/template/parser.go:55-143 | every parse error points at its marker: a stray "#FILE#", an opening "#FILE:" with no '#' after it, one with a blank name, or one with no closing marker after it |
| ParserShapes.KeptFromIsFirst | pkg/template/parser.go:165-172 | the head loop stops at the first File or non-blank segment and skips only blank Stdout segments |
| ParserShapes.KeptUntilIsLast | pkg/template/parser.go:174-181 | the tail loop stops after the last File or non-blank segment and drops only blank Stdout segments |
| ParserShapes.TrimEdgesSlice | pkg/template/parser.go:157-189 | trimming returns the contiguous run from the first to the last kept segment, keeping every File and interior segment; it returns [Stdout("")] exactly when no segment is kept |
| ParserShapes.TrimEdgesWellFormed | pkg/template/parser.go:150-151 | trimming keeps every segment well formed |
| ParserShapes.ParseWellFormed | pkg/template/parser.go:94-131 | on success no segment content holds "#FILE:" or "#FILE#", and no file name holds '#' |
| ParserShapes.ParseWithoutDirectives | pkg/template/parser.go:44-72 | a template with neither marker parses to [Stdout(template)], or to [Stdout("")] when it is all whitespace (the empty template included) |
| ParserShapes.ParseSingleFile | pkg/template/parser.go:81-134 | "#FILE:n#body#FILE#" parses to the single File(n, body), verbatim, for a non-blank n without '#' and a marker-free body not ending in "#FILE" |
| ParserBlocks.BlockAt | pkg/template/parser.go:81-134 | from outside a block, text, an opening marker with a valid name, a marker-free body and the closing marker take two turns that append Stdout(text) when the text is non-empty and then File(name, body), and leave the scan outside a block just after the closing marker |
| ParserBlocks.ReachesAfter | pkg/template/parser.go:55-134 | from outside a block, any run of complete blocks, each after at most one piece of text, leaves the scan outside a block at the end of the run with exactly those segments appended |
| ParserBlocks.ParseUnclosedBlock | pkg/template/parser.go:55-143 | after any run of complete blocks and some text, a block opened with no marker after it fails as unclosed at the offset of its opening marker in the whole template |
| ParserBlocks.ParseSwallowedClose | pkg/template/parser.go:91-143 | "#FILE:name#FILE#" (the name's '#' forgotten) fails as an unclosed block at offset 0 |
| ParserBlocks.ParseNestedOpen | pkg/template/parser.go:121-125 | after any run of complete blocks, an opening marker inside a block before any closing marker fails as nested at that marker's offset in the whole template |
| ParserBlocks.ParseStrayClose | pkg/template/parser.go:75-79 | after any run of complete blocks, a closing marker ahead of every opening marker fails as unexpected at its offset in the whole template |
| ParserBlocks.ParseMalformed | pkg/template/parser.go:91-98 | after any run of complete blocks, an opening marker that comes first with no '#' after it fails as malformed at its offset in the whole template |
| ParserBlocks.ParseEmptyName | pkg/template/parser.go:100-103 | after any run of complete blocks, an opening marker that comes first and whose name up to the next '#' is blank fails as an empty file name at its offset in the whole template |
| ParserBlocks.NestedInSecondBlock | pkg/template/parser.go:121-125 | "#FILE:a#x#FILE##FILE:b#y#FILE:" followed by any byte fails as nested at offset 24, the opening marker inside the second block |
| ParserShapes.OutsideNeverNested | pkg/template/parser.go:105-108 | the nested-directive check on a file name never fires |
| Writer.FileSystem.MkdirAll | pkg/template/writer.go:36 | the directory is added unless refused or a file is in the way; no file changes; after success `Stat` reports a directory at the path |
| Writer.FileSystem.WriteFile | pkg/template/writer.go:106 | the path gets the content unless refused or a directory; nothing else changes |
| Writer.FileSystem.Rename | pkg/template/writer.go:111 | an existing file moves onto the target, replacing it, unless the target is refused or a directory |
| Writer.FileSystem.Remove | pkg/template/writer.go:112 | the file is gone and nothing else changes |
| Writer.Moved | pkg/template/writer.go:111 | after a rename the target holds the source's content, the source is gone, and every other path is untouched |
| Writer.Store | pkg/template/writer.go:141-151 | a nil map is created first; the key then holds the content and every other entry is kept |
| Writer.MemoryFileWriter.SetBaseDir | pkg/template/writer.go:129-132 | stores the cleaned directory, leaves the files alone, never fails |
| Writer.MemoryFileWriter.WriteFile | pkg/template/writer.go:136-153 | ends in the state and result of `MemoryWrite` |
| Writer.DefaultFileWriter.SetBaseDir | pkg/template/writer.go:26-51 | ends in the state and result of `DiskSetBaseDir` |
| Writer.DefaultFileWriter.WriteFile | pkg/template/writer.go:66-117 | ends in the disk state and result of `DiskWrite`, changing nothing but the file system |
| WriterProofs.EmptyNameRejected | pkg/template/writer.go:67-69 | both writers reject "" with an error and leave their state unchanged |
| WriterProofs.MemoryWriteStores | pkg/template/writer.go:141-151 | a write stores the content under the name, or under Join(baseDir, name) when a base is set; a nil map is made first; every other entry stays |
| WriterProofs.MemoryWritesKeepBaseDir | pkg/template/writer.go:136-153 | writes never change the base directory |
| WriterProofs.MemoryLastWriteWins | pkg/template/writer.go:151 | after a series of writes, a key holds the content of the last write to it |
| WriterProofs.LaterWritesKeep | pkg/template/writer.go:151 | writes to other keys leave an entry as it was |
| WriterProofs.MemoryWritesKeys | pkg/template/writer.go:141-151 | the keys after a series of writes are the old keys plus one key per non-empty name |
| WriterProofs.MemoryDistinctNames | pkg/template/writer.go:141-151 | writing N distinct non-empty names to an empty writer with no base yields exactly those N entries |
| WriterProofs.TraversalRejected | pkg/template/writer.go:73-75 | a name containing ".." is rejected as path traversal before the base directory is consulted, touching nothing |
| WriterProofs.OutsideBaseDirRejected | pkg/template/writer.go:86-92 | with a base set, a cleaned path whose relative path fails or starts with ".." is rejected, touching nothing |
| WriterProofs.DiskWriteSucceeds | pkg/template/writer.go:66-117 | a write succeeds exactly when the name is non-empty, has no "..", is confined, and the parent, tmp and final paths are allowed; then the final path holds the content, no ".tmp" entry is left, and no other file changes |
| WriterProofs.RenameFailureCleansUp | pkg/template/writer.go:110-114 | when the rename fails, the ".tmp" file is removed and the error names the cleaned path |
| WriterProofs.DiskFailureKeepsFiles | pkg/template/writer.go:66-117 | a failed write changes no file except the ".tmp" sibling, and keeps the base directory |
| WriterProofs.DiskOverwrite | pkg/template/writer.go:104-116 | writing the same name again succeeds and replaces the content |
| WriterProofs.SetBaseDirOutcome | pkg/template/writer.go:26-51 | "" clears the base and succeeds; otherwise success exactly when the cleaned directory can be made, which then is a directory and becomes the base, files untouched; on failure nothing changes |
| Functions.Dedup | pkg/template/functions.go:25-40 | the deduplicated slice is no longer than the input |
| Functions.FirstIncomparable | pkg/template/functions.go:28-34 | the element `unique` rejects is in the input and not comparable; when there is none every element is comparable |
| Functions.Unique | pkg/template/functions.go:21-41 | the seen-set loop returns nil for nil, the error for the first non-nil incomparable element, and otherwise `Dedup` of the input |
| Functions.EnvOrDefault | pkg/template/functions.go:52-58 | the default is returned exactly when the variable is unset, empty or equal to it; any other result is the variable's value |
| FunctionsProofs.DedupElements | pkg/template/functions.go:25-40 | the result holds exactly the input's elements |
| FunctionsProofs.DedupDistinct | pkg/template/functions.go:35-38 | the result holds no element twice |
| FunctionsProofs.DedupFirstOccurrenceOrder | pkg/template/functions.go:9-11 | the result lists elements in the order of their first occurrence in the input |
| FunctionsProofs.DedupOfDistinct | pkg/template/functions.go:28-38 | a slice without repeats comes back unchanged |
| FunctionsProofs.DedupIdempotent | pkg/template/functions.go:28-38 | deduplicating twice gives the same as once |
| FunctionsProofs.UniqueFailsIff | pkg/template/functions.go:29-34 | `unique` fails exactly when the slice is non-nil and holds an incomparable element, and the error names such an element |
| FunctionsProofs.UniqueSucceeds | pkg/template/functions.go:21-41 | nil gives nil; a slice of comparable elements gives a non-nil slice that is no longer, distinct, has the same elements, and keeps first-occurrence order |
| FunctionsProofs.UniqueIntegersExample | pkg/template/functions_test.go:9-20 | [1, 2, 2, 3, 1, 4] gives [1, 2, 3, 4] |
| FunctionsProofs.UniqueStringsExample | pkg/template/functions_test.go:22-33 | ["a", "b", "a", "c", "b"] gives ["a", "b", "c"] |
| FunctionsProofs.UniqueEmptyIsNotNil | pkg/template/functions_test.go:35-46 | an empty non-nil slice gives an empty non-nil slice |
| FunctionsProofs.UniqueStructWithSliceFails | pkg/template/functions_test.go:59-70 | a struct with a slice field is not comparable, so `unique` fails |
| FunctionsProofs.EnvOrDefaultCases | pkg/template/functions.go:52-58 | a set non-empty variable wins; an unset or empty one gives the default |
| FunctionsProofs.EnvOrDefaultNonEmpty | pkg/template/functions.go:52-58 | with a non-empty default the result is never empty |
| FunctionsProofs.EnvOrDefaultIdempotent | pkg/template/functions.go:52-58 | using the result as the default again gives the same result |
| Executor.AnyProvider | pkg/template/executor.go:28-35 | the provider fails with "input is nil" exactly for nil, and otherwise returns the value unchanged |
| Executor.Output.Write | pkg/template/executor.go:217 | the output stream gains exactly the written bytes |
| Executor.WriteTo | pkg/template/executor.go:196 | a call of FileWriter.WriteFile ends as the chosen sink's write function says |
| Executor.RunValidators | pkg/template/executor.go:159-164 | the validator loop returns the first failure's message and makes the calls `Checks` gives |
| Executor.HandleSegment | pkg/template/executor.go:174-199 | one segment, handled on the output stream and file writer, ends as `SegmentStep` says |
| Executor.RenderSegments | pkg/template/executor.go:172-202 | the segment loop ends as `Dispatch` says: result, output, calls and writer state |
| Executor.ExecuteWithFiles | pkg/template/executor.go:146-203 | the whole run ends as `Run` says: result, output appended, calls and writer state |
| ExecutorProofs.FirstFailing | pkg/template/executor.go:160-164 | the index found is the first validator rejecting the data; all before it pass |
| ExecutorProofs.ChecksInOrder | pkg/template/executor.go:160-164 | validators run in registration order up to and including the first that fails; later ones are not run |
| ExecutorProofs.SegmentStepShape | pkg/template/executor.go:174-199 | a Stdout segment writes its rendering or partial output to the stream and never calls WriteFile; a File segment renders its name first, writes nothing to the stream, and calls WriteFile once, only when both renders succeed |
| ExecutorProofs.DispatchShape | pkg/template/executor.go:172-202 | the loop handles segments 0 .. n-1 in order and stops at the first error: trace, output and writer state are those of exactly those segments, and earlier writes stay |
| ExecutorProofs.DispatchAllRender | pkg/template/executor.go:172-202 | a successful loop rendered every template it met |
| ExecutorProofs.CallsWrites | pkg/template/executor.go:181-198 | the writes in the calls are one per File segment whose renders succeed, in order; when all render, one per File segment |
| ExecutorProofs.RunInputFails | pkg/template/executor.go:153-157 | a provider error aborts with no validator, render, output or write |
| ExecutorProofs.RunAnyProvider | pkg/template/executor.go:28-35 | with AnyProvider, nil aborts with "input is nil" before anything else; any other value is processed as is |
| ExecutorProofs.RunValidationFails | pkg/template/executor.go:159-164 | the first failing validator aborts the run after running validators 0 .. f, with no output and no write |
| ExecutorProofs.RunParseFails | pkg/template/executor.go:166-170 | a parse error aborts after all validators, with no output and no write |
| ExecutorProofs.RunSegments | pkg/template/executor.go:172-202 | after validation and parsing, the run's trace, output and writer state are those of the segments handled, in order |
| ExecutorProofs.RunSucceeds | pkg/template/executor.go:146-203 | a successful run had input, passed every validator, parsed, and rendered everything; the output is the Stdout renderings in order; WriteFile was called once per File segment in order; the sink is those writes applied in turn |
| ExecutorProofs.RunMemoryLastBodyWins | pkg/template/executor.go:173-202 | with the memory sink, a rendered name holds the body of its last File segment |

## Left out

- `Execute`, `YamlProvider` and `WithJsonSchemaValidation` (pkg/template/executor.go:37-113) are thin wrappers over yaml.v3, jsonschema and text/template. Providers and validators are modelled only as function values.
- `renderSegment` (pkg/template/executor.go:207-222) is Go's text/template. It is the uninterpreted parameter `render`. Its failures carry the bytes written before failing, which reach the output for Stdout segments and are dropped with the buffer for File segments.
- The template functions `env`, `envOrDefault` and `unique` are not wired into `render`, because rendering is opaque.
- Errors of the output `io.Writer` are not modelled: `Output.Write` always succeeds.
- Error messages are modelled as error constructors carrying the offsets, paths and reasons the messages print, not as formatted text.
- `filepath.Join`, `Clean`, `Rel` and `Dir` are uninterpreted, so nothing depends on their lexical rules.
- Writer.FileSystem.MkdirAll: it creates only the named directory and not its missing ancestors, and the permissions 0755/0644 and the durability of rename are not modelled.
- WriterProofs.SetBaseDirOutcome: `Stat` cannot fail right after a successful `MkdirAll` in this file system, so the "failed to stat" and "not a directory" errors of pkg/template/writer.go:41-47 are modelled in `DiskSetBaseDir` but never occur.
- WriterProofs.MemoryDistinctNames: stated for a writer without a base directory, where keys are the names themselves. With a base directory, `Join` is uninterpreted and could map distinct names to one key; `MemoryWritesKeys` covers that case.
- Functions.Comparable: a `Value` carries no static type separate from its dynamic contents, so a struct is judged by the values its fields hold. For a struct whose field type is comparable (such as `any`) but holds a slice, Go's `reflect.Type.Comparable` passes it and `seen[elem]` (pkg/template/functions.go:35) panics at run time; the model instead returns `NotComparable` for it and does not model the panic.
- Functions.Value does not distinguish Go's integer, float and named types. Two values are equal exactly when they are the same `Value`.
- Go's concurrency and the process environment are out of scope. The environment is a map parameter of `EnvOrDefault`.
- cmd/, main.go, internal/ and pkg/executor/ are command-line and library glue with no logic of their own. They are not part of this model.
