# hyper-ir-lsp: parser and symbol index, in Dafny

This project models the core of the hyper-ir-lsp language server: the
parser of the Hyper IR text format and the symbol index built from it.

- **Parser** (`src/hir_parser.rs`). A token stream becomes a list of
  top-level statements:
  - global variables `@name = ...`;
  - function declarations `declare ...`;
  - function definitions `define ... { ... }`, whose bodies are split into
    basic blocks;
  - debug annotations `!name ...`.

  Comment tokens are dropped before the grammar runs. Where no statement
  parses, one syntax error is reported and tokens are skipped until a
  statement parses again. When none does, the statement list cannot reach
  the end of the input and the document gets no statements at all. The
  combinator grammar is modelled as a recursive-descent parser over token
  positions (module `Parser`). Module `Shapes` describes, for each piece of syntax,
  the tokens that show it. It proves that parsing those tokens gives the
  piece back: a signature, an instruction list, a block list, a body, a
  statement, a whole document.
- **Index** (`src/hir_index.rs`). `create_index` makes two passes:
  - **Pass 1** walks the statements and records declarations and
    definitions. A span already recorded under a name is never recorded
    again (`src/hir_index.rs:101-103`), so the first occurrence of a span
    decides its kind. For each function definition it creates a function body
    record: the function's scope (labels, local variables) and the
    control-flow edges between labelled blocks.
  - **Pass 2** walks the raw token stream and records uses. Global names
    become function uses or global-variable uses. Local names become uses
    in the function whose range contains them.

  Every occurrence also goes into a reverse index keyed by start offset,
  which answers "which symbol is at this cursor position". Modules
  involved:
  - `UseDef`: per-name occurrence lists.
  - `OrderedMap`: the ordered reverse index.
  - `Index`: insertion primitives and position lookup.
  - `Builder`: the two passes.

Main results:
- `Builder.CreateIndexValid`: every built index keeps its invariant.
  - No span is listed twice under a name.
  - No incoming-branch list repeats a source label.
  - Every reverse-index entry is backed by its table.
- `Builder.CreateIndexGlobals`: each global table of the built index is
  exactly the statements' own names, then the name tokens' uses, recorded
  in order into an empty table, where a span already listed under a name is
  not recorded again (`UseDef.AddAll`).
- `Builder.CreateIndexScopes` and `Builder.CreateIndexLocalOrigin`: each
  function's labels and local variables are exactly its definition's label
  definitions and uses, argument and assignment-target definitions, then the
  local-name uses pass 2 resolves to it, and nothing else.
- `Builder.CreateIndexSkeletons`: function bodies match the definitions one
  to one.
- `Builder.FuncDefEdges`: a definition's incoming-branch edges are exactly
  the branches its labelled blocks make (both directions).
- `Index.LookupTotal` and `Index.UpperBoundAgrees`: position lookup over
  non-overlapping spans finds exactly the occurrence under the cursor. It
  agrees with the greatest-start lookup the code intends to use.
- `Shapes.DocumentParse`: a well-formed document parses back to its
  statements with no error.
- `Shapes.DocumentRecovers`: statement lines, one line that starts no
  statement, then statement lines, parse to all the statements around the
  bad line with one error at it; when no statement follows the bad line the
  document gets no statements at all (`Shapes.TrailingBadLineLosesAll`).

## How the two source files are reconciled

`src/hir_index.rs` reads fields that the types in `src/hir_parser.rs`
(lines 5-57) do not have:

- a `define_kw` span on `Statement::FuncDef`;
- a `FuncDependencies` statement kind;
- `basic_block_refs` on an instruction, where the parser's `Instruction`
  has `jump_targets`.

The block `label` the index reads is there (`src/hir_parser.rs:47-50`). The
model's statement types (module `Syntax`) follow what the index reads,
because the index is the consumer:

- `FuncDef` carries the span of its `define` keyword; the modelled parser
  fills it with the span of the `define` token.
- `FuncDependencies` exists; pass 1 ignores it, and no grammar rule produces it.
- An instruction carries its label references as `basicBlockRefs`.
- A basic block carries its label and its instructions, as in the parser.

The parser in `src/hir_parser.rs` always builds an instruction with an
empty `jump_targets` list (line 145). So the modelled parser produces
`basicBlockRefs == []`, and the index lemmas hold for any list of
references.

The control-flow edge rule is the one at `src/hir_index.rs:255`: an edge
`label -> target` is recorded when the instruction's mnemonic is not `phi`
**and** the enclosing block has a label.

## Model

| member | source | states |
|---|---|---|
| `OrderedMap.Insert` | src/hir_index.rs:105-114 | inserting into the reverse index keeps keys strictly ordered; the new entry is present, every entry at another key is kept, and nothing else appears (an entry at the same key is replaced) |
| `UseDef.UseDefList.Push` | src/hir_index.rs:30-36 | the list `get_use_def_kind_mut` selects gets the span appended; the other two lists are unchanged |
| `UseDef.UseDefList.Get` | src/hir_index.rs:22-28 | `get_use_def_kind` returns the declarations, definitions or uses list as the kind asks, and every span it returns is among the name's occurrences |
| `UseDef.PushKeepsUnique` | src/hir_index.rs:100-104 | appending a span not yet in any of a name's three lists keeps every span at most once, and adds exactly that span to the name's occurrences |
| `UseDef.Add` | src/hir_index.rs:100-104 | recording one occurrence in a table: afterwards the span is recorded under the name; a span already recorded under that name leaves the table unchanged, otherwise it is appended to the list of its kind (the name starting with empty lists when new); other names are untouched and nothing recorded is lost |
| `UseDef.AddAllFirstWins` | src/hir_index.rs:100-104 | after a sequence of occurrences is recorded in order, each one is listed under its name with its own kind, unless its span was already recorded under that name before, by the table or by an earlier occurrence: the first occurrence of a span wins |
| `UseDef.AddAllOnly` | src/hir_index.rs:100-104 | conversely, a span listed under a name and kind after recording a sequence was already there or is one of the sequence's occurrences with that name and kind |
| `UseDef.AddAllNames` | src/hir_index.rs:100 | the names of the table afterwards are the names before plus the names of the occurrences (`entry(...).or_default()`) |
| `UseDef.AddAllAppend` | src/hir_index.rs:100-104 | recording `a + b` is recording `a`, then `b` |
| `Index.AddInternal` | src/hir_index.rs:91-115 | a span already in any of the name's lists changes nothing; otherwise it is appended to the list of its use/def kind, the other lists and other names are untouched, and the reverse index gains exactly the occurrence at the span's start; the name is recorded either way |
| `Index.AddInternalUnique` | src/hir_index.rs:100-104 | the early return on an already-present span keeps every name's lists free of repeated spans |
| `Index.AddGlobal` | src/hir_index.rs:117-126 | a global occurrence changes only the table of its kind and the reverse index, with no function id; function bodies are untouched |
| `Index.AddFuncLocal` | src/hir_index.rs:132-156 | a local occurrence changes only the label or local-variable table of body `id` and the reverse index; the global tables and every other body are untouched |
| `Index.AddThenGet` | src/hir_index.rs:77-89 | after an occurrence is added, the table `get_by_symbol_kind` returns for its kind (and function body, for labels and locals) records the span under the name |
| `Index.GetBySymbolKind` | src/hir_index.rs:77-89 | the global variables, functions or annotations table for a global kind, the given body's labels or local variables for a local one; its partner `Index.AddThenGet` shows an added occurrence is found through it |
| `Index.AddGlobalValid` | src/hir_index.rs:117-126 | adding a global occurrence loses nothing already recorded and keeps the index invariant |
| `Index.AddFuncLocalValid` | src/hir_index.rs:132-156 | adding a local occurrence loses nothing already recorded and keeps the index invariant |
| `Index.FindSymbolAtPosition` | src/hir_index.rs:168-172 | the result is None exactly when no recorded span contains the position; otherwise it contains the position and is the first such entry in start-offset order |
| `Index.LookupTotal` | src/hir_index.rs:168-172 | when recorded spans do not overlap, every position inside a recorded span finds exactly that occurrence |
| `Index.UpperBoundAgrees` | src/hir_index.rs:173-178 | on a valid index with non-overlapping spans, the greatest-start-at-or-before lookup gives the same answer as the linear scan |
| `Builder.AddEdge` | src/hir_index.rs:256-264 | the source label is listed for the target afterwards, the list only gains that label, stays free of repeats, and every other target's list, the scopes and the reverse index are unchanged |
| `Builder.AddEdgeHas` | src/hir_index.rs:256-264 | the edges after recording one are the edges before plus exactly that one |
| `Builder.IndexRef` | src/hir_index.rs:248-265 | one label reference changes only body `id`'s scope and edges, keeping its name, range and blocks |
| `Builder.IndexRefs` | src/hir_index.rs:248-266 | a reference list changes only body `id`'s scope and edges, keeping its name, range and blocks |
| `Builder.IndexInstruction` | src/hir_index.rs:239-266 | one instruction changes only body `id`'s scope and edges, keeping its name, range and blocks |
| `Builder.IndexInstructions` | src/hir_index.rs:239-267 | a block's instructions change only body `id`'s scope and edges, keeping its name, range and blocks |
| `Builder.IndexBlock` | src/hir_index.rs:228-267 | one block changes only body `id`'s scope and edges, keeping its name, range and blocks |
| `Builder.IndexBlocks` | src/hir_index.rs:228-268 | a body's blocks change only body `id`'s scope and edges, keeping its name, range and blocks |
| `Builder.IndexArgs` | src/hir_index.rs:218-226 | the arguments change only body `id`'s local variables: labels and edges stay as they are |
| `Builder.NewBody` | src/hir_index.rs:208-216 | a new body carries the definition's name, the range from the `define` keyword's start to the closing bracket's end, and its blocks, with empty scopes and no edges |
| `Builder.DefinitionHead` | src/hir_index.rs:207-226 | the function name is recorded as a `Def` in the function table (unless that span is already there), which is the only global table that changes; exactly one body is added, at the end, with the definition's skeleton and no edges; earlier bodies are unchanged |
| `Builder.AddDefinition` | src/hir_index.rs:202-269 | the function name is recorded as a `Def` in the function table and the other global tables are unchanged; exactly one body is added, at the end, with the definition's name, range and blocks; earlier bodies are unchanged |
| `Builder.IndexStatement` | src/hir_index.rs:189-270 | a statement adds a function body exactly when it is a definition, and leaves existing bodies' name, range and blocks alone |
| `Builder.DeclRecorded` | src/hir_index.rs:193-195 | a declaration records a `Decl` of the function name (appended unless already present), leaves its defs and uses, every other function and the other tables alone, and creates no body |
| `Builder.Pass1` | src/hir_index.rs:188-271 | pass 1 adds one function body per definition and keeps existing bodies' skeletons |
| `Builder.Pass1Skeletons` | src/hir_index.rs:202-217 | pass 1 appends the bodies in the order of the definitions, each with its definition's name, range and blocks |
| `Builder.Pass1Globals` | src/hir_index.rs:188-271 | pass 1 adds to each global table exactly the statements' own-name occurrences of that kind, in order |
| `Builder.Pass1Scopes` | src/hir_index.rs:202-269 | the bodies pass 1 appends have, in order, the scopes their definitions make |
| `Builder.FindBody` | src/hir_index.rs:293-298 | the search returns the first body whose complete range contains the position, and None exactly when no body's range does |
| `Builder.ResolveCursorFirst` | src/hir_index.rs:288-299 | when function ranges do not overlap, keeping the cached function while its range still contains the offset gives the same answer as a fresh search from the first body |
| `Builder.ResolveCursor` | src/hir_index.rs:288-299 | the current function is kept while its range contains the offset, else searched again; the result's range contains the offset, and it is None exactly when no body's range does |
| `Builder.NextCursor` | src/hir_index.rs:287-299 | only a local name moves the current function, and it always stays a valid body index |
| `Builder.IndexToken` | src/hir_index.rs:276-311 | the current function afterwards is the one `NextCursor` resolves; every body other than that one is unchanged, so is the number of bodies, their skeletons and the set of function names; a token that is no global name, debug reference or local name changes nothing |
| `Builder.IndexTokenGlobals` | src/hir_index.rs:277-286 | one token adds to each global table exactly its own occurrence of that kind: a global name a `Use` in the functions table when a function of that name is known and in the global variables otherwise, a debug reference a `Use` in the annotations |
| `Builder.IndexTokenLocals` | src/hir_index.rs:287-309 | one token adds to body `j`'s local variables exactly a `Use` of its name when it is a local name and the resolved current function is `j`, and nothing else anywhere in the body |
| `Builder.Pass2` | src/hir_index.rs:274-312 | pass 2 keeps the number of bodies, their skeletons and the set of function names |
| `Builder.CreateIndex` | src/hir_index.rs:182-315 | the index has one function body per definition, and pass 2 adds no function name |
| `Builder.CreateIndexSkeletons` | src/hir_index.rs:207-216 | body `j` of the built index has the name, the range from `define` to `}` and the blocks of the `j`-th definition |
| `Builder.CreateIndexGlobals` | src/hir_index.rs:182-315 | each global table of the built index equals the statements' own names (a global variable, a defined function and an annotation as `Def`, a declared function as `Decl`), then the tokens' uses of that kind, recorded in order into an empty table; a global name is a function use exactly when some statement declares or defines a function of that name |
| `Builder.CreateIndexScopes` | src/hir_index.rs:182-315 | body `j`'s labels equal the `j`-th definition's block labels (`Def`) and label references (`Use`), and its local variables equal its arguments and assignment targets (`Def`) then the local-name tokens resolved to it (`Use`), each recorded in order into an empty table |
| `Builder.CreateIndexLocalOrigin` | src/hir_index.rs:182-315 | conversely, every span listed under a name and kind in body `j`'s local variables is one of those occurrences, with that name and kind |
| `Builder.AddEdgeKeeps` | src/hir_index.rs:256-264 | recording an edge loses nothing and keeps the invariant |
| `Builder.RefKeeps` | src/hir_index.rs:248-265 | one label reference loses nothing and keeps the invariant |
| `Builder.IndexRefsKeeps` | src/hir_index.rs:248-266 | an instruction's label references lose nothing and keep the invariant |
| `Builder.InstructionKeeps` | src/hir_index.rs:239-266 | one instruction loses nothing and keeps the invariant |
| `Builder.IndexInstructionsKeeps` | src/hir_index.rs:239-267 | a block's instructions lose nothing and keep the invariant |
| `Builder.BlockKeeps` | src/hir_index.rs:228-267 | one block loses nothing and keeps the invariant |
| `Builder.IndexBlocksKeeps` | src/hir_index.rs:228-268 | a body's blocks lose nothing and keep the invariant |
| `Builder.IndexArgsKeeps` | src/hir_index.rs:218-226 | the arguments lose nothing and keep the invariant |
| `Builder.PushBodyKeeps` | src/hir_index.rs:208-216 | pushing a fresh body loses nothing and keeps the invariant |
| `Builder.DefinitionHeadKeeps` | src/hir_index.rs:207-226 | the name, new body and arguments of a definition lose nothing and keep the invariant |
| `Builder.FuncDefKeeps` | src/hir_index.rs:202-269 | a whole definition loses nothing and keeps the invariant |
| `Builder.IndexStatementKeeps` | src/hir_index.rs:189-270 | every statement kind loses nothing and keeps the invariant |
| `Builder.Pass1Keeps` | src/hir_index.rs:188-271 | pass 1 loses nothing and keeps the invariant |
| `Builder.IndexTokenKeeps` | src/hir_index.rs:276-311 | one token of pass 2 loses nothing and keeps the invariant |
| `Builder.Pass2Keeps` | src/hir_index.rs:274-312 | pass 2 loses nothing and keeps the invariant |
| `Builder.CreateIndexValid` | src/hir_index.rs:182-315 | every index built from any statements and tokens has unique spans per name, repeat-free incoming lists, and a reverse index keyed by start offset whose every entry is backed by its table |
| `Builder.RefEdges` | src/hir_index.rs:248-265 | one reference adds exactly the edge from the block's label to the referenced label, when the mnemonic is not `phi` and the block is labelled, and no other |
| `Builder.IndexRefsEdges` | src/hir_index.rs:248-266 | an instruction's references add exactly the edges from the block's label to each referenced label, when it is not a `phi` |
| `Builder.InstructionEdges` | src/hir_index.rs:248-266 | one instruction adds exactly the edges from the block's label to the labels it references, when it is not a `phi` |
| `Builder.IndexInstructionsEdges` | src/hir_index.rs:239-267 | a block's instructions add exactly the edges from its label to the labels some non-`phi` instruction references |
| `Builder.BlockEdges` | src/hir_index.rs:228-267 | one block adds exactly the edges from its label to the labels its non-`phi` instructions reference; an unlabelled block adds none |
| `Builder.IndexBlocksEdges` | src/hir_index.rs:228-268 | a body's blocks add exactly the edges `source -> target` for which a block labelled `source` has a non-`phi` instruction referencing `target` |
| `Builder.FuncDefEdges` | src/hir_index.rs:255-265 | in a definition's body, `source` is listed as an incoming branch of `target` if and only if a block labelled `source` has a non-`phi` instruction referencing `target` |
| `Builder.RefRecords` | src/hir_index.rs:248-254 | one label reference adds exactly a label `Use` of its name and span to its function's labels, and nothing to its local variables |
| `Builder.IndexRefsRecords` | src/hir_index.rs:248-254 | an instruction's label references add exactly one label `Use` each, in order, and nothing to the local variables |
| `Builder.InstructionRecords` | src/hir_index.rs:240-254 | one instruction adds exactly its assignment target, if any, as a local-variable `Def` and its label references as label `Use`s |
| `Builder.IndexInstructionsRecords` | src/hir_index.rs:239-267 | a block's instructions add exactly their assignment targets as local-variable `Def`s and their references as label `Use`s, in order |
| `Builder.BlockRecords` | src/hir_index.rs:228-267 | one block adds exactly its label, if any, as a label `Def`, then what its instructions add |
| `Builder.IndexBlocksRecords` | src/hir_index.rs:228-268 | a body's blocks add exactly their labels as label `Def`s and their instructions' targets and references, block by block in order |
| `Builder.IndexArgsRecords` | src/hir_index.rs:218-226 | the arguments add exactly one local-variable `Def` each, in order, and no label |
| `Builder.FuncDefScope` | src/hir_index.rs:202-269 | the new body's labels are exactly the definition's label `Def`s and `Use`s and its local variables exactly its argument and assignment-target `Def`s, recorded in order into empty tables |
| `Builder.IndexStatementRecords` | src/hir_index.rs:189-269 | one statement adds to each global table exactly its own name's occurrence of that kind (a global variable, a defined function and an annotation as `Def`, a declared function as `Decl`, a dependency list nothing); a definition's new body gets its scope |
| `Builder.IndexTokenRecords` | src/hir_index.rs:276-311 | after one token, its span is listed under its name in the table its kind selects (unless it was already recorded there) and the other tables are unchanged; a local name affects only the resolved body |
| `Builder.Pass2Records` | src/hir_index.rs:274-312 | pass 2 adds to each global table exactly the token stream's uses of that kind, in order, and to each body's local variables exactly the local-name uses resolved to it, in order; labels, edges and skeletons are unchanged |
| `Builder.LocalUsesFromTokens` | src/hir_index.rs:287-309 | every local use pass 2 records in body `j` is a `Use` made by a local-name token with that name and span, lying in `j`'s range |
| `Builder.LocalUsesComplete` | src/hir_index.rs:287-309 | conversely, every local-name token inside some function's range makes a `Use` in a function whose range contains it |
| `Parser.Expect` | src/hir_parser.rs:61-88 | a name token of the expected class is accepted with its text and span, and any other token is rejected |
| `Parser.Eol` | src/hir_parser.rs:60 | end of line is a newline (consumed) or the end of input (nothing consumed), and nothing else |
| `Parser.SoupEnd` | src/hir_parser.rs:90-93 | the soup ends at or after its start, inside the input; its partner `Parser.SoupEndLine` says where |
| `Parser.SoupEndLine` | src/hir_parser.rs:90-93 | token soup takes every token up to, not including, the first newline or the end of input |
| `Parser.SkipNewlines` | src/hir_parser.rs:209 | the padding ends at or after its start, inside the input; its partner `Parser.SkipNewlinesSkipsNewlines` says where |
| `Parser.SkipNewlinesSkipsNewlines` | src/hir_parser.rs:209 | the padding skips only newlines, and stops at a token that is not one |
| `Parser.ParseGlobalVar` | src/hir_parser.rs:95-100 | a global variable parses exactly when a global name is followed by `=`; its name is that token and its definition is the rest of the line, ended by a newline or the end of input |
| `Parser.ParseDbgAnnotation` | src/hir_parser.rs:199-203 | an annotation parses exactly when the line starts with a debug reference; its name is that token and its definition is the rest of the line |
| `Parser.ParseModifiers` | src/hir_parser.rs:111-112 | the modifier list takes one token per modifier; its partner `Parser.ModifiersRun` says which |
| `Parser.ModifiersRun` | src/hir_parser.rs:111-112 | the modifiers are exactly the maximal run of modifier tokens, in order |
| `Parser.ParseArg` | src/hir_parser.rs:103-105 | an argument parses exactly from a type followed by a local name, and is made of those two |
| `Parser.ParseMoreArgs` | src/hir_parser.rs:108 | each further argument takes exactly a comma and two tokens |
| `Parser.ParseArgs` | src/hir_parser.rs:108 | the argument list is empty exactly when it consumes nothing |
| `Parser.ParseSignature` | src/hir_parser.rs:110-122 | a parsed signature takes at least one token and stays inside the input; its partner `Parser.SignatureShape` says what it is made of |
| `Parser.SignatureShape` | src/hir_parser.rs:110-122 | a parsed signature is the modifier run, then the return type, the global name and `(`, then the arguments the argument list parses from after `(`, then `)` right where that list stops; it has no arguments exactly when `)` follows `(` |
| `Parser.ParseAddr` | src/hir_parser.rs:124-125 | the address is present exactly when `=` is followed by a hex number, and then consists of that number |
| `Parser.ParseDecl` | src/hir_parser.rs:127-132 | a declaration starts with `declare` and ends with a newline or the end of input |
| `Parser.ParseInstruction` | src/hir_parser.rs:134-146 | a parsed instruction takes at least one token and stays inside the input; its partner `Parser.InstructionShape` says when it parses and what it is |
| `Parser.InstructionShape` | src/hir_parser.rs:134-146 | an instruction parses exactly when its mnemonic is not followed by `:`; it has an assignment target exactly when the `Type LocalName =` prefix is there, no label references, and takes the rest of the line |
| `Parser.LabelIsNoInstruction` | src/hir_parser.rs:140 | a label line `name:` is never read as an instruction |
| `Parser.ParseInstructions` | src/hir_parser.rs:153-157 | an instruction list stays inside the input; its partners `Parser.InstructionsEmpty` and `Shapes.InstructionsParse` say what it takes |
| `Parser.InstructionsEmpty` | src/hir_parser.rs:153-157 | an instruction list consumes nothing exactly when it is empty |
| `Parser.ParseBlock` | src/hir_parser.rs:148-162 | a parsed block takes at least one token and stays inside the input; its partner `Parser.BlockShape` says what it is made of |
| `Parser.BlockShape` | src/hir_parser.rs:148-162 | a parsed block starts with `name :` and a newline, carries that name as its label, and its instructions are the list parsed after the newlines, ending where that list ends |
| `Parser.ParseBlocks` | src/hir_parser.rs:178 | a block list stays inside the input; its partner `Parser.BlocksLabelled` says every block in it is labelled |
| `Parser.BlocksLabelled` | src/hir_parser.rs:159-162 | every block of a block list is labelled |
| `Parser.ParseBody` | src/hir_parser.rs:164-190 | a parsed body takes at least one token and stays inside the input; its partner `Parser.BodyShape` says what it is made of |
| `Parser.BodyShape` | src/hir_parser.rs:164-190 | a parsed body runs from its `{` to its `}` and records their spans; its first block, and only that one, is unlabelled, and holds the instructions parsed after the newlines that follow `{` |
| `Parser.ParseBodyLine` | src/hir_parser.rs:195-196 | a body followed by the end of its line ends with a newline or at the end of input |
| `Parser.ParseDef` | src/hir_parser.rs:192-197 | a definition starts with `define`, carries that keyword's span, and ends with a newline or the end of input |
| `Parser.ParseStatement` | src/hir_parser.rs:205-208 | a statement is announced by its first token (global name, `declare`, `define`, debug reference) and ends with a newline or the end of input |
| `Parser.ParsePadded` | src/hir_parser.rs:209 | a padded statement takes at least one token, and stops at the end of input or at a token that is not a newline |
| `Parser.Recover` | src/hir_parser.rs:210 | recovery resumes at the first later position where a padded statement parses, and finds none when none does |
| `Parser.ParseFrom` | src/hir_parser.rs:205-212 | errors lie inside the input, statements plus errors never outnumber the tokens, and a parse that does not reach the end of the input has reported an error |
| `Parser.ErrorsAtFailures` | src/hir_parser.rs:210 | each error is reported at a position where no statement parses |
| `Parser.FilterComments` | src/hir_parser.rs:231 | the filtered stream holds exactly the tokens that are not comments |
| `Parser.FilterCommentsAppend` | src/hir_parser.rs:231 | filtering distributes over concatenation, so the order of the kept tokens is the order in the input |
| `Parser.ParseTokens` | src/hir_parser.rs:221-248 | the result keeps the full token stream (comments included), has no more statements and errors than tokens, and has no statements at all when the statement list does not reach the end of the input (`unwrap_or(Vec::new())`, line 246) |
| `Shapes.NameIsParsed` | src/hir_parser.rs:61-88 | a name token at its own span is accepted as that name |
| `Shapes.ModifiersParse` | src/hir_parser.rs:111-112 | the tokens of a modifier list parse back to it |
| `Shapes.MoreArgsParse` | src/hir_parser.rs:108 | the tokens of `, Arg` repeated parse back to those arguments |
| `Shapes.ArgsParse` | src/hir_parser.rs:107-108 | the tokens of a comma-separated argument list, before `)`, parse back to it |
| `Shapes.SignatureParse` | src/hir_parser.rs:110-122 | the tokens of a signature parse back to it, stopping right after `)` |
| `Shapes.InstructionParse` | src/hir_parser.rs:134-146 | the tokens of an instruction line parse back to the instruction, stopping at its newline |
| `Shapes.StopsAtBlockOrClose` | src/hir_parser.rs:140 | a closing bracket or a label line is not an instruction, so it ends an instruction list |
| `Shapes.InstructionsParse` | src/hir_parser.rs:153-157 | the lines of an instruction list, followed by a label or `}`, parse back to the list |
| `Shapes.BlockParse` | src/hir_parser.rs:148-162 | the lines of a labelled block parse back to it |
| `Shapes.BlocksStep` | src/hir_parser.rs:178 | a block followed by a block list parses as the longer list |
| `Shapes.BlocksParse` | src/hir_parser.rs:178 | the lines of a block list, followed by `}`, parse back to the list |
| `Shapes.BodyFromParts` | src/hir_parser.rs:164-190 | once the entry instructions, the labelled blocks and the closing bracket are located, the body parser rebuilds the body and stops after the bracket |
| `Shapes.BodyStep` | src/hir_parser.rs:164-190 | once `{`, a newline, the entry instructions, the labelled blocks and `}` are located, the body parser returns exactly that body |
| `Shapes.BodyParse` | src/hir_parser.rs:164-190 | the tokens of a body parse back to it: entry block, labelled blocks and bracket spans |
| `Shapes.SoupParse` | src/hir_parser.rs:90-93 | a run of non-newline tokens followed by a newline is exactly what the soup takes |
| `Shapes.GlobalVarParse` | src/hir_parser.rs:95-100 | the line of a global variable parses back to it |
| `Shapes.DbgAnnotationParse` | src/hir_parser.rs:199-203 | the line of an annotation parses back to it |
| `Shapes.DeclAlternative` | src/hir_parser.rs:205-208 | a line starting with `declare` can only be a declaration |
| `Shapes.AddrParse` | src/hir_parser.rs:124-125 | the tokens `= HexNum` before a newline parse back to that address, and no address is read when they are absent |
| `Shapes.DeclStep` | src/hir_parser.rs:127-132 | once the signature and the address are parsed and a newline follows, the declaration parser builds the declaration from exactly those parts |
| `Shapes.DeclParse` | src/hir_parser.rs:127-132 | the line of a declaration parses back to it, address included |
| `Shapes.DefAlternative` | src/hir_parser.rs:205-208 | a line starting with `define` can only be a definition |
| `Shapes.DefStep` | src/hir_parser.rs:192-197 | once the signature and the body are parsed and a newline follows, the definition parser builds exactly that definition |
| `Shapes.DefPartsParse` | src/hir_parser.rs:192-197 | `define`, a parsed signature and the tokens of a body, then a newline, parse back to that definition |
| `Shapes.DefLineParse` | src/hir_parser.rs:192-208 | the line of a definition whose signature and body are located parses, as a statement, back to that definition, stopping after its newline |
| `Shapes.DefParse` | src/hir_parser.rs:192-197 | the lines of a definition parse back to it as a statement |
| `Shapes.StatementParse` | src/hir_parser.rs:205-208 | the line(s) of any statement the grammar has parse back to it, stopping after its newline |
| `Shapes.LinesStart` | src/hir_parser.rs:209 | a run of statement lines starts at its end or at a token that is not a newline, so the newline padding skips nothing there |
| `Shapes.PaddedParse` | src/hir_parser.rs:205-209 | a statement line followed by the end of input or by another line parses as one padded statement ending right after its newline |
| `Shapes.ParseFromStep` | src/hir_parser.rs:205-211 | when a padded statement parses, the statement list is that statement followed by what the rest gives |
| `Shapes.LinesParse` | src/hir_parser.rs:205-211 | statement lines up to some position parse to those statements followed by whatever the rest of the input gives, errors and completion included |
| `Shapes.ProgramParse` | src/hir_parser.rs:205-212 | statement lines one after the other up to the end of input parse to exactly those statements, with no error, reaching the end |
| `Shapes.FilterCommentsNone` | src/hir_parser.rs:231 | a stream without comments passes the filter unchanged |
| `Shapes.DocumentParse` | src/hir_parser.rs:221-248 | a comment-free document made of statement lines parses to exactly those statements, keeps its tokens, and has no error |
| `Shapes.StartsNothingFails` | src/hir_parser.rs:205-209 | no padded statement parses at a token other than a newline that cannot start a statement |
| `Shapes.BadLineFails` | src/hir_parser.rs:205-209 | no padded statement parses anywhere inside a line of such tokens |
| `Shapes.RecoverAt` | src/hir_parser.rs:210 | recovery resumes exactly at the first position where a padded statement parses |
| `Shapes.PaddedAfterNewline` | src/hir_parser.rs:209 | at a newline, the padded statement is the one after it |
| `Shapes.ParseFromResume` | src/hir_parser.rs:210-211 | where no statement parses, one error is reported there and the list continues with the statement recovery finds |
| `Shapes.ParseFromGiveUp` | src/hir_parser.rs:210-212 | where no statement parses and recovery finds none later, one error is reported there and the parse stops short of the end with no further statement |
| `Shapes.BadLastLine` | src/hir_parser.rs:210-212 | a bad last line gives no statement, one error, and a parse that does not reach the end |
| `Shapes.BadLineRecovers` | src/hir_parser.rs:210 | a bad line followed by a statement fails, and recovery resumes at its newline, where the padded statement is the following one |
| `Shapes.BadLineThen` | src/hir_parser.rs:205-212 | a bad line followed by a statement gives one error at the bad line, then that statement and what follows it |
| `Shapes.BadLineSkip` | src/hir_parser.rs:205-212 | a bad line followed by statement lines up to the end parses to those statements and one error at the bad line, reaching the end exactly when there is at least one such statement |
| `Shapes.RecoversFromLine` | src/hir_parser.rs:205-212 | for any statement lines `a`, one bad line, then statement lines `b` up to the end, the parse gives `a + b` and exactly one error, at the bad line, and reaches the end exactly when `b` is not empty |
| `Shapes.DocumentRecovers` | src/hir_parser.rs:205-248 | for a comment-free document of that form the result is `a + b` with that one error when `b` is not empty, and no statement with that one error when it is |
| `Shapes.RecoversFromBadLine` | src/hir_parser.rs:421-443 | the tokens of `@1 = [12]`, `broken line`, `@bar = [32]` on three lines give exactly the two variables and exactly one error, at the broken line |
| `Shapes.TrailingBadLineLosesAll` | src/hir_parser.rs:205-248 | the tokens of `@1 = [12]` then `broken line` give no statement and one error: the statement list cannot reach the end, so the document keeps none |

## Left out

- The lexer (`hir_tokenizer.rs`) is not part of this model: token streams and their spans are inputs, and lexer errors are not modelled. Lexemes the grammar never inspects are one `Other` token kind.
- `main.rs` and the language-server protocol (hover, go-to-definition, references, folding, semantic tokens, diagnostics) are not part of this model, nor is the conversion between byte offsets and line/column positions.
- Byte offsets are unbounded naturals; the source's `usize` cannot overflow on any real document.
- The hash maps of the index are Dafny maps, so their iteration order, which the source never relies on, is not modelled. The reverse index is a sorted sequence, because its key order is what position lookup walks.
- Concurrency and the server's document store are left out: the model is a pure function of one document.
- `add_global_spanned` and `add_func_local_spanned` (`src/hir_index.rs:128-130`, `158-166`) only unpack a spanned name; the model calls `AddGlobal` and `AddFuncLocal` with the parts.
- `Index.GetBySymbolKind` and `Index.AddGlobal` / `Index.AddFuncLocal` require a category their `match` accepts; the source panics (`unwrap`, `unreachable!`) on the others, and `create_index` never passes them.
- The contents of a `FuncDependencies` statement are not modelled: the index does not read them.
- Label references of instructions: the parser builds every instruction with no references. Which operand tokens name labels is not determined by the parser shown, so the index lemmas hold for any list of references.
- Error recovery: the parser library's `skip_then_retry_until([])` (`src/hir_parser.rs:210`) is modelled as: where no padded statement parses, report one error at that token, then resume at the first later position where one does. The library's error messages, expected-token sets and the span of the error are not modelled. The repetition is followed by `then_ignore(end())` (line 212): when recovery finds no later statement, the repetition stops short of the end, the whole parse fails, and `unwrap_or(Vec::new())` (line 246) leaves the document with no statements, including those parsed before the failure (`Shapes.TrailingBadLineLosesAll`). The errors the library reports in that case are modelled as the one error at the failing position.
- `Shapes.DocumentParse`: the round trip covers documents whose lines are separated by exactly one newline, whose last line also ends with one, whose instructions have no operands, and whose blocks and bodies contain no blank lines. The parser itself accepts more: blank lines, operands and a missing final newline. For those inputs the properties of the `Parser` lemmas hold, not the round trip.
- `Builder.LocalUsesComplete`: for a local name inside some function's range, it states that a function whose range contains the token records the use. It does not say which one; with nested ranges that is the one the cached cursor chose, which `Builder.IndexToken`, `Builder.NextCursor` and `Builder.ResolveCursorFirst` state.
- `Parser.SoupEnd`: its own contract states only bounds; what it parses is stated by `Parser.SoupEndLine`.
- `Parser.SkipNewlines`: its own contract states only bounds; what it parses is stated by `Parser.SkipNewlinesSkipsNewlines`.
- `Parser.ParseModifiers`: its own contract states only bounds; what it parses is stated by `Parser.ModifiersRun` and `Shapes.ModifiersParse`.
- `Parser.ParseMoreArgs`: its own contract states only bounds; what it parses is stated by `Shapes.MoreArgsParse`.
- `Parser.ParseArgs`: its own contract states only bounds; what it parses is stated by `Shapes.ArgsParse`.
- `Parser.ParseSignature`: its own contract states only bounds; what it parses is stated by `Parser.SignatureShape` and `Shapes.SignatureParse`.
- `Parser.ParseDecl`: its own contract states only bounds; what it parses is stated by `Shapes.DeclParse`.
- `Parser.ParseInstruction`: its own contract states only bounds; what it parses is stated by `Parser.InstructionShape` and `Shapes.InstructionParse`.
- `Parser.ParseInstructions`: its own contract states only bounds; what it parses is stated by `Parser.InstructionsEmpty` and `Shapes.InstructionsParse`.
- `Parser.ParseBlock`: its own contract states only bounds; what it parses is stated by `Parser.BlockShape` and `Shapes.BlockParse`.
- `Parser.ParseBlocks`: its own contract states only bounds; what it parses is stated by `Parser.BlocksLabelled` and `Shapes.BlocksParse`.
- `Parser.ParseBody`: its own contract states only bounds; what it parses is stated by `Parser.BodyShape` and `Shapes.BodyParse`.
- `Parser.ParseBodyLine`: its own contract states only bounds; what it parses is stated by `Shapes.DefPartsParse`.
- `Parser.ParseDef`: its own contract states only bounds; what it parses is stated by `Shapes.DefParse`.
- `Parser.ParsePadded`: its own contract states only bounds; what it parses is stated by `Shapes.PaddedParse` and `Shapes.StartsNothingFails`.
- `Parser.ParseFrom`: its own contract states only bounds; what it parses is stated by `Shapes.ParseFromStep`, `Shapes.ParseFromResume`, `Shapes.ParseFromGiveUp` and `Shapes.ProgramParse`.
