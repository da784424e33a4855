# Spar-rust stream front end and the bzip2 MPI block pipeline, in Dafny

This project models two parts of the RustStreamBench repository.

**The `to_stream!` macro of spar-rust.** The macro turns a stream
description into a pipeline for the `rust_spp` library. The description is
a header `INPUT(..), OUTPUT(..), REPLICATE = .., ORDERED` followed by a
block. The block holds some driver code, then a flat list of
`STAGE(<attributes>, { <body> });` items. The model covers:

- the token helpers;
- the attribute parser;
- the two-phase stage splitter, which leaves `__SPAR_MARKER__` where the
  first `STAGE` stood;
- the resolver, which turns driver code into stage 0, splits every stage's
  input into piped input and state, rejects state that no stream input
  explains, and promotes `Vec` state of the last stage to outputs;
- the decisions of the code generator: marker substitution, the posted
  tuple, dropping stage 0, struct shapes, replica counts, the
  `SPAR_NUM_WORKERS` override and the order of pipeline nodes.

Tokens are a datatype `Ident | Punct | Literal | Group(delim, inner)`. A
type is kept as its rendered text, because the source compares types by
their text. A cursor is the sequence of tokens not yet consumed (a suffix
of the input), not a sequence plus an index; the two carry the same
information. Errors are a datatype of error kinds. The generator's output
is an abstract program: one struct description per stage, one pipeline
argument per stage followed by `collect_ordered`, and the dispatcher code.

**The bzip2 benchmark under MPI (`bzip2/src/mpi.rs`).** Rank 0 cuts the
input into pieces. For compression a piece is a fixed 900000-byte chunk.
For decompression a piece ends where the next `BZh91AY&SY` block header
starts. Pieces go round-robin to ranks 1..threads-1, each tagged with a
sequence number, and each worker gets one size-0 stop message at the end.
Rank 0 puts the answers back in order with a min-heap keyed by
(sequence number, bytes). The model turns sends into a list of messages
and receives into a list of arrivals. The heap is a sorted sequence.

Loops in the source are methods proved equal to a recursive specification
function (`ensures r == Spec(..)`). The lemmas about those functions state
the properties. Two of those loops, GetType and FindVariablesInCode, are
the corrected readings listed under "## Findings", not the code as written;
the as-written behaviour is modelled beside them.

## Model

| member | source | states |
|---|---|---|
| SparTokens.SkipPunct | libs/spar-rust/src/spar_stream.rs:358-372 | succeeds iff the next token is the given punctuation; then it consumes exactly that token; otherwise the error names the expected character |
| SparTokens.SkipParenthesis | libs/spar-rust/src/spar_stream.rs:282-293 | succeeds iff the next token is a parenthesised group; returns its contents and the cursor after it; otherwise a parenthesis error |
| SparTokens.DecimalRoundTrip | libs/spar-rust/src/spar_stream.rs:332-342 | every u32 written in decimal parses back as itself with `parse::<u32>` |
| SparTokens.DecimalDigits | libs/spar-rust/src/spar_stream.rs:332-342 | the decimal text of n is non-empty, all digits, and denotes n |
| SparTokens.ParseU32 | libs/spar-rust/src/codegen.rs:101-113 | a successful parse is at most u32::MAX, and the text is non-empty and does not start with `-` (a leading `+` is accepted, as in Rust) |
| SparTokens.RenderStartsWithFirst | libs/spar-rust/src/spar_stream.rs:23-27 | the rendered text of a token list begins with the first token's text, followed by a separating space when more follows |
| SparModel.SameVar | libs/spar-rust/src/spar_stream.rs:54-59 | two variables are equal iff name and type text are equal |
| SparModel.SameTypeText | libs/spar-rust/src/spar_stream.rs:23-27 | two declarations of one name are the same variable iff their type tokens render to the same text |
| SparModel.IsVecByFirstIdent | libs/spar-rust/src/spar_stream.rs:49-51 | a variable is a Vec iff its type text starts with `Vec`, which for a type starting with an identifier means that identifier starts with `Vec` |
| SparModel.IsReplicate | libs/spar-rust/src/spar_stream.rs:81-90 | `is_replicate` is exactly the negation of `is_sequential` |
| SparModel.NewStage | libs/spar-rust/src/spar_stream.rs:117-125 | a new stage has the given attributes, code and id and empty state |
| SparModel.SameStage | libs/spar-rust/src/spar_stream.rs:128-132 | stages with equal attributes and code are equal, whatever their state and id |
| SparArgsParser.CommaIndex | libs/spar-rust/src/spar_stream.rs:265-270 | the index found holds the first top-level comma, or is the end when there is none |
| SparArgsParser.TypeSpan | libs/spar-rust/src/spar_stream.rs:262-279 | a type is read iff the cursor is non-empty and does not start with a comma; the type is non-empty and comma-free; the cursor left starts at the comma or is empty; type and rest concatenate to the input |
| SparArgsParser.TypeSpanOf | libs/spar-rust/src/spar_stream.rs:262-279 | a comma-free type followed by a comma or by nothing is read back exactly, and the comma is not consumed |
| SparArgsParser.GetType | libs/spar-rust/src/spar_stream.rs:262-279 | the loop returns what TypeSpan specifies, the corrected get_type of the first Findings row |
| SparArgsParser.TypeSpanAsWrittenDiffers | libs/spar-rust/src/spar_stream.rs:262-279 | the code as written returns an empty type when a comma comes first, where TypeSpan reports an error; on every other cursor the two agree |
| SparArgsParser.VarItems | libs/spar-rust/src/spar_stream.rs:299-322 | a non-identifier is an unexpected-token error; an identifier without `:` is a missing-`:` error; an empty list is the empty result; the first variable carries the first name |
| SparArgsParser.VarList | libs/spar-rust/src/spar_stream.rs:295-324 | succeeds iff the next token is a parenthesised group whose items parse; returns the items and the cursor after the group |
| SparArgsParser.GetVariables | libs/spar-rust/src/spar_stream.rs:295-324 | the loop returns what VarList specifies |
| SparArgsParser.VarItemsRoundTrip | libs/spar-rust/src/spar_stream.rs:295-324 | printing `name: type` declarations, with or without a trailing comma, and parsing them gives back the declared variables in order with their exact type text |
| SparArgsParser.VarListOf | libs/spar-rust/src/spar_stream.rs:295-324 | a parenthesised printed declaration list parses to its variables and leaves the following tokens |
| SparArgsParser.ParseReplicate | libs/spar-rust/src/spar_stream.rs:326-356 | succeeds iff `=` is followed by an identifier or by a literal that is a u32 above 0; gives `Var(ident)` or `Lit(n)` and consumes two tokens; a literal 0 is the dedicated zero error and every other failure is the syntax error |
| SparArgsParser.AttrItems | libs/spar-rust/src/spar_stream.rs:382-466 | a list or replication already read is kept in the result; a header with no body is the missing-body error |
| SparArgsParser.SparArgs | libs/spar-rust/src/spar_stream.rs:374-467 | no parenthesised header is a parenthesis error; on success the cursor after the header is returned |
| SparArgsParser.ParseSparArgs | libs/spar-rust/src/spar_stream.rs:374-467 | the loop returns what SparArgs specifies |
| SparArgsParser.AttrItemsBody | libs/spar-rust/src/spar_stream.rs:441-466 | in any state the loop can be in: the end of the list is the missing-body error; a body followed by nothing or by a comma ends the loop with the attributes read so far and the body; any other token after the body is an error |
| SparArgsParser.AttrItemsDuplicates | libs/spar-rust/src/spar_stream.rs:384-433 | in any state: INPUT when an input is already read, OUTPUT when an output is, REPLICATE when a replication is, and ORDERED when a replication is, are each their own error |
| SparArgsParser.AttrItemsEmptyList | libs/spar-rust/src/spar_stream.rs:392-409 | in any state without an input (output), `INPUT()` (`OUTPUT()`) is the empty-list error |
| SparArgsParser.AttrItemsUnknown | libs/spar-rust/src/spar_stream.rs:435-459 | in any state, a literal, a punctuation, a non-brace group or an identifier other than the four keywords is an error |
| SparArgsParser.AttrItemsStep | libs/spar-rust/src/spar_stream.rs:384-433 | in any state where its keyword is still unset, a well-formed INPUT, OUTPUT, REPLICATE or ORDERED attribute sets that keyword and nothing else; it must be followed by a comma, and otherwise the missing-comma error is returned |
| SparArgsParser.AttrItemsPrefix | libs/spar-rust/src/spar_stream.rs:382-433 | printed attributes, in any order in which each keyword is still unset when it comes, are read one after another and leave the state they declare |
| SparArgsParser.ReadAllInput | libs/spar-rust/src/spar_stream.rs:384-397 | INPUT occurs at most once in a readable attribute list; the input read is that occurrence's non-empty variables, or unchanged when INPUT does not occur |
| SparArgsParser.ReadAllOutput | libs/spar-rust/src/spar_stream.rs:399-412 | the same for OUTPUT |
| SparArgsParser.ReadAllReplicate | libs/spar-rust/src/spar_stream.rs:414-433 | REPLICATE and ORDERED together occur at most once; the replication read is that occurrence's, or unchanged (SeqUnordered from the start) when neither occurs |
| SparArgsParser.SparArgsAccepts | libs/spar-rust/src/spar_stream.rs:374-467 | a header whose attributes come in any order, each followed by a comma and none twice, then a body and optionally a comma, parses to the declared attributes and that body |
| SparArgsParser.SparArgsBodyErrors | libs/spar-rust/src/spar_stream.rs:441-466 | after well-formed attributes in any order, a missing body is an error, and anything other than a comma after the body is an error |
| SparArgsParser.SparArgsDuplicates | libs/spar-rust/src/spar_stream.rs:384-433 | after well-formed attributes in any order, an INPUT or OUTPUT that already occurred is an error, and a REPLICATE or ORDERED after a REPLICATE or ORDERED is an error |
| SparArgsParser.SparArgsEmptyList | libs/spar-rust/src/spar_stream.rs:392-409 | after well-formed attributes in any order, a first `INPUT()` or `OUTPUT()` is rejected as empty |
| SparArgsParser.SparArgsUnknown | libs/spar-rust/src/spar_stream.rs:435-459 | after well-formed attributes in any order, a literal, a punctuation, a non-brace group or an unknown identifier is an error |
| SparArgsParser.SparArgsMissingComma | libs/spar-rust/src/spar_stream.rs:384-433 | after well-formed attributes in any order, one more attribute that reads correctly but is not followed by a comma is the missing-comma error |
| SparStages.Locate | libs/spar-rust/src/spar_stream.rs:474-509 | when a `STAGE` keyword is reachable through brace groups, the split gives one code buffer per open brace level and one saved tail per enclosing group, and the rest starts at the keyword |
| SparStages.LocateNotFound | libs/spar-rust/src/spar_stream.rs:474-509 | no keyword is found iff no `STAGE` is reachable through brace groups |
| SparStages.LocateRebuild | libs/spar-rust/src/spar_stream.rs:474-509 | the buffers, the rest and the saved tails put back together give the input |
| SparStages.LocatePrefixesFree | libs/spar-rust/src/spar_stream.rs:474-509 | no buffered level holds a reachable `STAGE` |
| SparStages.SplitCodeNoStage | libs/spar-rust/src/spar_stream.rs:469-520 | with no reachable keyword, the code is the input unchanged and no stage tokens are left |
| SparStages.SplitCodeDriver | libs/spar-rust/src/spar_stream.rs:478-495 | top-level driver code before the stages gets the marker appended, and empty driver code stays empty |
| SparStages.CollapseStep | libs/spar-rust/src/spar_stream.rs:510-516 | closing one level wraps the innermost buffer in a brace group at the end of the level above, and collapsing is unchanged by it |
| SparStages.SplitStages | libs/spar-rust/src/spar_stream.rs:469-520 | the stack-and-groups loop returns what SplitCode specifies |
| SparStages.MarkAndCollapse | libs/spar-rust/src/spar_stream.rs:479-493 | the closing loop gives the marked buffers collapsed into nested brace groups |
| SparStages.StageList | libs/spar-rust/src/spar_stream.rs:522-550 | stages get ids count+1, count+2, … in order with empty state; a token that is not `STAGE` is an error; the list is empty iff the cursor is; an error while reading a stage's attributes is returned as is; a stage whose header is not followed by `;` is the missing-semicolon error; the first stage holds the attributes and body its header declares |
| SparStages.StageListRoundTrip | libs/spar-rust/src/spar_stream.rs:522-550 | printing well-formed stages as `STAGE(attrs, {body});`, attributes in any order, and parsing them gives back the same stages, bodies verbatim, ids in order |
| SparStages.ParseStageList | libs/spar-rust/src/spar_stream.rs:522-550 | the loop returns what StageList specifies from id 1 |
| SparStages.ParseSparStages | libs/spar-rust/src/spar_stream.rs:469-553 | the whole function returns what SparStagesOf specifies |
| SparStages.SparStagesRoundTrip | libs/spar-rust/src/spar_stream.rs:469-553 | driver code followed by printed stages gives those stages and the driver code with the marker, or nothing when there is no driver code |
| SparStages.SparStagesNone | libs/spar-rust/src/spar_stream.rs:469-553 | code with no reachable keyword gives no stages and the code unchanged |
| SparExamples.TopLevelCode | libs/spar-rust/src/spar_stream.rs:612-634 | a stage inside a `while` loop leaves the marker at the end of the loop body and is read from that level |
| SparExamples.SplitCodeInGroup | libs/spar-rust/src/spar_stream.rs:469-520 | a keyword one brace level deep leaves the marker at the end of the inner level and closes the group after it |
| SparExamples.StageWithMultipleInputs | libs/spar-rust/src/spar_stream.rs:688-715 | `INPUT(a: u32, b: u32, c: u32)` gives one stage with those three inputs in order |
| SparExamples.InputCannotBeALiteral | libs/spar-rust/src/spar_stream.rs:864-872 | `STAGE(INPUT(10), {});` is rejected at the literal |
| SparExamples.InputCannotBeEmpty | libs/spar-rust/src/spar_stream.rs:874-882 | `STAGE(INPUT(), {});` is rejected as an empty input |
| SparExamples.OutputCannotBeEmpty | libs/spar-rust/src/spar_stream.rs:884-892 | `STAGE(OUTPUT(), {});` is rejected as an empty output |
| SparExamples.ForgotComma | libs/spar-rust/src/spar_stream.rs:894-902 | `STAGE(REPLICATE = 4 {});` is rejected for the missing comma |
| SparExamples.MissingSemicolon | libs/spar-rust/src/spar_stream.rs:532-539 | a stage followed by `let` instead of `;` is the missing-semicolon error |
| SparExamples.CodeAfterStages | libs/spar-rust/src/spar_stream.rs:904-913 | code after the stage list is rejected |
| SparResolve.FirstNamed | libs/spar-rust/src/spar_stream.rs:244 | a variable is found iff some entry has that name, and the one found has it |
| SparResolve.SkipMut | libs/spar-rust/src/spar_stream.rs:233-241 | any number of leading `mut` is skipped, and nothing else |
| SparResolve.AddAll | libs/spar-rust/src/spar_stream.rs:228-229 | the merged list holds exactly the members of both and stays duplicate-free |
| SparResolve.ScanFacts | libs/spar-rust/src/spar_stream.rs:219-260 | the scan keeps the members found so far plus exactly the variables bound by `let` anywhere in the code, without duplicates |
| SparResolve.FindVarsFacts | libs/spar-rust/src/spar_stream.rs:219-260 | the result holds exactly the `to_find` variables bound by a `let` at any depth, each once |
| SparResolve.ScanAsWrittenMembers | libs/spar-rust/src/spar_stream.rs:219-260 | the code as written finds the same members |
| SparResolve.ScanAsWrittenRepeats | libs/spar-rust/src/spar_stream.rs:228-229 | the code as written returns `[a, a]` for `let a ..; { let a .. }`, while the corrected scan returns `[a]` |
| SparResolve.FindVariablesInCode | libs/spar-rust/src/spar_stream.rs:219-260 | the loop-and-recursion returns what FindVars specifies, the corrected reading of the second Findings row |
| SparResolve.WithDriver | libs/spar-rust/src/spar_stream.rs:159-166 | non-empty driver code becomes stage 0 in front, with the stream's input and replication and empty state; its output is the stream's output when there are no stages, and otherwise the first stage's inputs that the driver code binds with `let` (FindVars, characterised by SparResolve.FindVarsFacts); empty driver code adds nothing |
| SparResolve.KeepDropPartition | libs/spar-rust/src/spar_stream.rs:168-185 | state and remaining input together are the declared input, as a multiset |
| SparResolve.KeepMembers | libs/spar-rust/src/spar_stream.rs:183 | the remaining input holds exactly the declared inputs the previous stage outputs |
| SparResolve.DropMembers | libs/spar-rust/src/spar_stream.rs:171-182 | state holds exactly the declared inputs the previous stage does not output |
| SparResolve.DropDrop | libs/spar-rust/src/spar_stream.rs:183 | removing the state from the input leaves the inputs the previous stage outputs |
| SparResolve.SplitState | libs/spar-rust/src/spar_stream.rs:170-184 | a stage's new state is its input minus the previous output and its new input the rest, in order; output, replication, code and id are unchanged |
| SparResolve.SplitStateSteps | libs/spar-rust/src/spar_stream.rs:171-183 | the source's two steps, state first then `retain`, give SplitState |
| SparResolve.DerivedStagesFacts | libs/spar-rust/src/spar_stream.rs:168-185 | every stage after the first gets state and input that partition its declared input by the previous stage's output; the first stage is unchanged |
| SparResolve.SplitStage | libs/spar-rust/src/spar_stream.rs:170-184 | one step returns what SplitState specifies |
| SparResolve.DeriveStates | libs/spar-rust/src/spar_stream.rs:168-185 | the loop over adjacent pairs returns what DerivedStages specifies |
| SparResolve.CheckExternal | libs/spar-rust/src/spar_stream.rs:187-199 | fails with the untraceable error iff some stage's state is not a stream input; on success the external variables are exactly the stream input |
| SparResolve.Restored | libs/spar-rust/src/spar_stream.rs:201-209 | the promoted variables are exactly the state variables that are external and Vec-typed |
| SparResolve.PromoteLast | libs/spar-rust/src/spar_stream.rs:201-209 | the promoted variables are appended in order to the last stage's output and to the stream's output; nothing else changes |
| SparResolve.ResolveTraced | libs/spar-rust/src/spar_stream.rs:150-216 | a resolved stream keeps every stage's id and code, has the stream input as its external variables, and every state variable is external |
| SparResolve.StreamOfNonEmpty | libs/spar-rust/src/spar_stream.rs:150-216 | a stream that resolves has at least one stage |
| SparResolve.TryFrom | libs/spar-rust/src/spar_stream.rs:150-216 | the whole conversion returns what StreamOf specifies |
| SparCodegen.HasMarkerAppend | libs/spar-rust/src/codegen.rs:10-32 | a marker occurs in a concatenation iff it occurs in one of the parts |
| SparCodegen.CopyFound | libs/spar-rust/src/codegen.rs:10-32 | the found flag is set iff a marker occurs at some group depth |
| SparCodegen.CopyUnchanged | libs/spar-rust/src/codegen.rs:10-32 | code with no marker is copied unchanged, delimiters included |
| SparCodegen.CopyIdentity | libs/spar-rust/src/codegen.rs:10-32 | replacing the marker by itself changes nothing |
| SparCodegen.CopyMarkerFree | libs/spar-rust/src/codegen.rs:10-32 | with a marker-free replacement, no marker is left anywhere |
| SparCodegen.CopyCode | libs/spar-rust/src/codegen.rs:10-32 | the copy returns what CopyAll specifies |
| SparCodegen.JoinShape | libs/spar-rust/src/codegen.rs:119-121 | a comma-joined list has the items at even places and separators between them |
| SparCodegen.PostCallMarkerFree | libs/spar-rust/src/codegen.rs:45-47 | the post call holds no marker when no posted name is the marker |
| SparCodegen.Identifiers | libs/spar-rust/src/codegen.rs:127-137 | the identifiers are the variables' names, in order |
| SparCodegen.DispatcherFacts | libs/spar-rust/src/codegen.rs:34-64 | found iff stage 0 holds the marker; then the code is stage 0 with the post call in place of the marker, otherwise the post call alone |
| SparCodegen.NewDispatcher | libs/spar-rust/src/codegen.rs:34-64 | the constructor returns what DispatcherOf specifies |
| SparCodegen.StructNameInjective | libs/spar-rust/src/codegen.rs:143 | distinct ids give distinct struct names |
| SparCodegen.IdentsAndTypes | libs/spar-rust/src/codegen.rs:127-137 | the two loops return the names and the type texts of the variables, in order |
| SparCodegen.StructOf | libs/spar-rust/src/codegen.rs:139-189 | error iff the input is empty; otherwise the struct is named `SparStage{id}`, carries the stage's code and input, and has the InOut shape iff the output is non-empty, with the output's types |
| SparCodegen.StructsOfFacts | libs/spar-rust/src/codegen.rs:200-202 | fails iff some stage has no input; otherwise one struct per stage, in order |
| SparCodegen.Remaining | libs/spar-rust/src/codegen.rs:195-198 | stage 0 is dropped iff it holds the marker |
| SparCodegen.TopLevel | libs/spar-rust/src/codegen.rs:191-205 | the stages left, the structs and the dispatcher are those Remaining, StructsOf and DispatcherOf specify |
| SparCodegen.AsI32 | libs/spar-rust/src/codegen.rs:83-91 | the replica count as i32 is the u32 wrapped to 32-bit two's complement, equal to it below 2^31 |
| SparCodegen.SparNumWorkers | libs/spar-rust/src/codegen.rs:97-117 | absent or unparsable gives None; 0 gives Some(1); any other value gives itself; a warning is given exactly for unparsable and 0 |
| SparCodegen.SparNumWorkersDecimal | libs/spar-rust/src/codegen.rs:97-117 | any count from 1 to u32::MAX written in decimal is taken as is, without warning |
| SparCodegen.OverrideRule | libs/spar-rust/src/codegen.rs:76-117 | a variable count is never overridden; a literal count is replaced by the override when there is one; a sequential stage has one replica |
| SparCodegen.PipelineArgs | libs/spar-rust/src/codegen.rs:207-218 | one pipeline argument per stage, in order |
| SparCodegen.CodegenFacts | libs/spar-rust/src/codegen.rs:220-255 | fails iff a remaining stage has no input; otherwise one struct and one node per remaining stage with the same `SparStage{id}` name, sequential iff not replicated, then `collect_ordered`, with the dispatcher of stage 0 |
| SparCodegen.RustSppGen | libs/spar-rust/src/codegen.rs:220-248 | the loop returns what CodegenOf specifies |
| SparCodegen.ToStreamOf | libs/spar-rust/src/lib.rs:7-13 | a front-end failure becomes the macro's compile error, and only then; otherwise the resolved stream has a stage, and the result is the generated program, or the generator's panic when generation fails |
| SparCodegen.ToStream | libs/spar-rust/src/lib.rs:7-13 | the macro returns what ToStreamOf specifies |
| Bzip2Chunks.GatherTiles | bzip2/src/mpi.rs:48-61 | spans that tile a range, gathered in order, give back that range of the input |
| Bzip2Chunks.ChunksTile | bzip2/src/mpi.rs:48-61 | chunks start at the given position, are contiguous, reach the end, are BLOCK_SIZE long except the last, which is the non-empty remainder |
| Bzip2Chunks.ChunkCount | bzip2/src/mpi.rs:43 | the number of chunks is `(len + BLOCK_SIZE - 1) / BLOCK_SIZE`, the receive count |
| Bzip2Chunks.Target | bzip2/src/mpi.rs:70-73 | a target rank is always between 1 and threads-1 |
| Bzip2Chunks.TargetRoundRobin | bzip2/src/mpi.rs:46-73 | piece k goes to rank `1 + k mod (threads-1)` |
| Bzip2Chunks.DataSendsAt | bzip2/src/mpi.rs:61-69 | send i carries piece i with sequence number i and its round-robin target |
| Bzip2Chunks.Stops | bzip2/src/mpi.rs:76-79 | one stop message to each rank 1..threads-1, in order |
| Bzip2Chunks.SendsShape | bzip2/src/mpi.rs:46-79 | the sends are the data pieces numbered 0, 1, … with targets in 1..threads-1, then exactly one stop per worker |
| Bzip2Chunks.CompressSends | bzip2/src/mpi.rs:46-79 | the compress send loop returns what Sends over the chunks specifies |
| Bzip2Chunks.ChunksCover | bzip2/src/mpi.rs:48-74 | the payloads of the compress sends concatenate to the whole input |
| Bzip2Chunks.AppendStops | bzip2/src/mpi.rs:76-79 | the stop loop appends the stop messages |
| Bzip2Chunks.BlockSends | bzip2/src/mpi.rs:212-236 | the decompress send loop returns what Sends over the blocks specifies |
| Bzip2Chunks.Worker | bzip2/src/mpi.rs:124-155 | the worker loop takes the jobs Jobs specifies from its inbox, stopping at the first size-0 message |
| Bzip2Chunks.WorkerHandlesItsPieces | bzip2/src/mpi.rs:124-155 | each worker's inbox is its own pieces then one stop, and it handles exactly its own pieces |
| Bzip2Chunks.FindHeader | bzip2/src/mpi.rs:183-185 | the first window equal to the block header, or none when no window is |
| Bzip2Chunks.WindowHeaders | bzip2/src/mpi.rs:172-185 | a header in the scan window is a header of the input starting 10 bytes after the block start, within the window's cap |
| Bzip2Chunks.BlockEnd | bzip2/src/mpi.rs:168-193 | a block ends at least 10 bytes after its start and at a block header unless it ends at the input end |
| Bzip2Chunks.BlockEndFirst | bzip2/src/mpi.rs:168-193 | no header inside the scanned window comes before the block end |
| Bzip2Chunks.BlocksTile | bzip2/src/mpi.rs:163-193 | the blocks start at 0, are contiguous and reach the input end |
| Bzip2Chunks.BlocksAtHeaders | bzip2/src/mpi.rs:163-193 | every block after the first starts at a block header, and each block ends where BlockEnd says |
| Bzip2Chunks.BlocksCover | bzip2/src/mpi.rs:163-236 | the payloads of the decompress sends concatenate to the whole input |
| Bzip2Chunks.ScanBlocks | bzip2/src/mpi.rs:163-193 | the boundary scan loop returns what Blocks specifies |
| Bzip2Reorder.FlattenAppend | bzip2/src/mpi.rs:99-114 | appending buffers distributes over concatenation |
| Bzip2Reorder.KeyLeTotal | bzip2/src/mpi.rs:101 | the heap key order (sequence number, then bytes) is total |
| Bzip2Reorder.KeyLeTrans | bzip2/src/mpi.rs:101 | the heap key order is transitive |
| Bzip2Reorder.KeyLeAntisym | bzip2/src/mpi.rs:101 | the heap key order is antisymmetric |
| Bzip2Reorder.InsertMultiset | bzip2/src/mpi.rs:101 | a push adds exactly the pushed entry |
| Bzip2Reorder.InsertSorted | bzip2/src/mpi.rs:101 | a push keeps the heap ordered |
| Bzip2Reorder.InsertMin | bzip2/src/mpi.rs:102-109 | popping the minimum and pushing it back restores the heap |
| Bzip2Reorder.SortedUnique | bzip2/src/mpi.rs:113-115 | two ordered heaps with the same entries are the same sequence, so the drain order is determined |
| Bzip2Reorder.SortFacts | bzip2/src/mpi.rs:113-115 | Sort orders its input and keeps its entries |
| Bzip2Reorder.TakeArrival | bzip2/src/mpi.rs:97-99 | an arrival with the awaited number is appended and the invariant holds |
| Bzip2Reorder.ParkArrival | bzip2/src/mpi.rs:100-101 | any other arrival is pushed on the heap and the invariant holds |
| Bzip2Reorder.TakeParked | bzip2/src/mpi.rs:102-107 | a heap minimum with the awaited number is appended and the invariant holds |
| Bzip2Reorder.FinalFacts | bzip2/src/mpi.rs:87-115 | after all receives, output plus the drained heap holds every arrival; when arrivals number 0..n-1 once each, that is all buffers in sequence order |
| Bzip2Reorder.CatchUp | bzip2/src/mpi.rs:102-110 | the inner pop loop keeps the invariant and stops with the heap empty or its minimum not awaited |
| Bzip2Reorder.Drain | bzip2/src/mpi.rs:113-115 | the final drain appends the heap's buffers in heap order |
| Bzip2Reorder.Receive | bzip2/src/mpi.rs:88-111 | one receive step keeps the invariant: output is buffers 0..cur_order-1 and the heap holds the other arrivals |
| Bzip2Reorder.Reorder | bzip2/src/mpi.rs:82-115 | the output is the arrivals' buffers in some order of all arrivals and as long as all of them together; when the arrivals number 0..n-1 once each, it is every buffer in sequence order |
| Bzip2Reorder.TotalSizePermutation | bzip2/src/mpi.rs:82-115 | any reordering of the results carries the same number of bytes, so the output neither loses nor repeats a received byte |
| Bzip2Reorder.SortRestores | bzip2/src/mpi.rs:82-115 | any arrival order of numbered pieces is sorted back to the pieces |
| Bzip2Reorder.EchoesOfSends | bzip2/src/mpi.rs:61-69 | answers to the data sends carry numbers k, k+1, … and their buffers concatenate to the payload |
| Bzip2Reorder.CompressRoundTrip | bzip2/src/mpi.rs:43-115 | when each worker echoes its chunk, rank 0's output is the input, whatever order the answers arrive in |
| Bzip2Reorder.DecompressRoundTrip | bzip2/src/mpi.rs:163-271 | when each worker echoes its block, rank 0's output is the input, whatever order the answers arrive in |

## Left out

- The bzip2 compression and decompression themselves (`bzip2_sys` calls), MPI initialisation, the threads, file I/O and timing are not modelled. A worker's answer is taken to be its piece, which is what the round-trip lemmas assume.
- The output buffer size `(len * 1.01) as usize + 600` uses floating point and is not modelled.
- The duplicated chunking loops in `bzip2/src/sequential.rs`, `spar_rust.rs`, `spar_rust_v2.rs` and `spar_rust_mpi.rs`, and the reorder loops of the other benchmarks, are not part of this model. The decompress receive loop (`bzip2/src/mpi.rs:238-271`) is the same as the compress one and shares its model.
- Bzip2Chunks.CompressSends, Bzip2Chunks.BlockSends, Bzip2Chunks.Target: require threads ≥ 2 (the program adds 1 to the worker count it is given). With one rank the source sends to rank 1, which has exited.
- Bzip2Chunks.ScanBlocks, Bzip2Chunks.BlocksCover, Bzip2Reorder.DecompressRoundTrip: require the input to be empty or at least 10 bytes long. The source slices `pos_init + 10..` and panics on a shorter tail.
- Bzip2Reorder.Reorder: sequence numbers are unbounded naturals. The source's `u32` numbers would wrap after 2^32 pieces.
- Bzip2Reorder.Reorder: takes the arrivals as a list. Which worker answers first is decided by the scheduler and is not modelled.
- Stage ids are naturals; the source's `u32` ids would wrap after 2^32 stages.
- `syn`'s token buffer and `proc_macro` internals, spans and error message text are not modelled. Errors are kinds, and Render separates every token by one space, not by the real `proc_macro2` spacing.
- SparModel.SameTypeText: type equality is equality of rendered text, as in the source. Render is not injective, so two token lists can give the same type.
- The text produced by `quote!`, the generated structs' bodies and the run-time behaviour of the `rust_spp` pipeline are not modelled. The generator's output is the abstract program described above.
- SparCodegen.SparNumWorkers: the environment variable is a parameter. Reading the process environment is not modelled.
- SparCodegen.StructOf: a stage without input makes the source panic. The model returns an error instead.
- SparCodegen.CodegenOf, SparCodegen.RustSppGen: require at least one stage, as `stages[0]` does in the source. SparResolve.StreamOfNonEmpty proves that every resolved stream has one.
- SparResolve.StreamOf: when there are neither stages nor driver code, the source's `stages.len() - 1` underflows. The model returns a dedicated error there instead.
- `codegen.rs` is out of step with `spar_stream.rs`: it uses `Replicate::None`, `is_none()` and `out_types.0`, which no longer exist. The model reads "None" as `is_sequential` and `out_types` as the stage's output.
- The comment at `libs/spar-rust/src/codegen.rs:99-100` says an invalid `SPAR_NUM_WORKERS` is set to None. The code at `codegen.rs:103-106` instead gives `Some(1)` and a warning for 0, and the model follows the code.
- The code at `libs/spar-rust/src/codegen.rs:237-245` always emits `collect_ordered!()` and `collect()`, even when the stream has no output, and the model does the same.
- GetType, VarItems, VarList, FindVariablesInCode, FindVars, TryFrom, StreamOf, ToStream: the path from the macro input to the generated program uses the corrected readings from "## Findings", not the code as written. Two inputs differ. On `INPUT(a: , b: u32)` the source gives `a` an empty type, where the model returns the expected-type error. When the variable `a` is bound by `let` both in stage 0's driver code and again in a nested group, the source lists `a` twice in stage 0's output, where the model lists it once. The as-written behaviour is modelled only by TypeSpanAsWritten and ScanAsWritten, with the lemmas named in "## Findings".
- Generated worker structs carry no state fields; the source leaves this as a TODO and so does the model.
- SparExamples.CodeAfterStages: the source's test also leaves out the comma after `REPLICATE = 4`, so it fails before the trailing code is reached. The lemma puts the comma in, so that the trailing code is what is rejected.

## Findings

| source | as written | input that shows it | evidently intended | confidence | as-written member | corrected member |
|---|---|---|---|---|---|---|
| libs/spar-rust/src/spar_stream.rs:262-279 | `get_type` returns an empty type when the cursor starts with `,`; only an empty type at end of input is rejected | `INPUT(a: , b: u32)` gives `a` an empty type | a variable always has a non-empty type; an empty one is the expected-type error | medium, not executed | SparArgsParser.TypeSpanAsWrittenDiffers | SparArgsParser.TypeSpan |
| libs/spar-rust/src/spar_stream.rs:228-229 | the variables found in a nested group are added with `extend`, with no duplicate check | `let a = ..; { let a = ..; }` with `a` sought gives `[a, a]` | each variable is listed once, as the `contains` check at line 245 does for the same level | low, not executed | SparResolve.ScanAsWrittenRepeats | SparResolve.FindVarsFacts |
