/**
 Index construction in two passes. Pass 1 walks the statements and records
 declarations and definitions, creating one function body per definition.
 Pass 2 walks the raw token stream and records uses.
 */
module Builder {
  import opened Tokens
  import opened Syntax
  import opened UseDef
  import opened Index
  import OrderedMap

  /* ---------------- What stays fixed ---------------- */

  /** The parts of a function body that pass 1 sets when it creates the body
      and that nothing changes afterwards. */
  datatype Skeleton = Skeleton(name: Spanned<string>, completeRange: Span, basicBlocks: seq<BasicBlock>)

  function SkeletonOf(fb: FunctionBody): Skeleton {
    Skeleton(fb.name, fb.completeRange, fb.basicBlocks)
  }

  /** The skeleton a function definition calls for: its name, the range from
      the `define` keyword to the closing bracket, and its blocks. */
  function DefSkeleton(s: Statement): Skeleton
    requires s.FuncDef?
  {
    Skeleton(s.signature.name, Span(s.defineKw.start, s.body.closingBracket.end), s.body.basicBlocks)
  }

  /** From `a` to `b` only the scope of function body `id` changed: the
      global tables are equal, every other body is equal, and body `id`
      keeps its skeleton. */
  predicate OnlyScopeChanges(a: HIRIndex, b: HIRIndex, id: nat) {
    && a.globalVars == b.globalVars && a.functions == b.functions && a.dbgAnnotations == b.dbgAnnotations
    && |a.functionBodies| == |b.functionBodies|
    && id < |a.functionBodies|
    && (forall j :: 0 <= j < |a.functionBodies| && j != id ==> b.functionBodies[j] == a.functionBodies[j])
    && SkeletonOf(b.functionBodies[id]) == SkeletonOf(a.functionBodies[id])
  }

  /** The skeletons of all existing bodies are the same in `b` as in `a`. */
  predicate SameSkeletons(a: HIRIndex, b: HIRIndex) {
    && |a.functionBodies| <= |b.functionBodies|
    && forall j :: 0 <= j < |a.functionBodies| ==> SkeletonOf(b.functionBodies[j]) == SkeletonOf(a.functionBodies[j])
  }

  /* ---------------- Pass 1: declarations and definitions ---------------- */

  /** The incoming-branch list of `target` in body `fb`, empty when absent. */
  function Incoming(fb: FunctionBody, target: string): seq<Spanned<string>> {
    if target in fb.incomingBranches then fb.incomingBranches[target] else []
  }

  /** Records the branch edge `source -> target` in body `id`, unless that
      source label is already listed for the target. */
  function AddEdge(idx: HIRIndex, id: nat, target: string, source: Spanned<string>): (r: HIRIndex)
    requires id < |idx.functionBodies|
    ensures OnlyScopeChanges(idx, r, id)
    ensures r.reverseIdx == idx.reverseIdx
    ensures r.functionBodies[id].labels == idx.functionBodies[id].labels
    ensures r.functionBodies[id].localVars == idx.functionBodies[id].localVars
    ensures target in r.functionBodies[id].incomingBranches
    ensures source in r.functionBodies[id].incomingBranches[target]
    ensures forall x :: x in r.functionBodies[id].incomingBranches[target] ==>
      x in Incoming(idx.functionBodies[id], target) || x == source
    ensures NoDup(Incoming(idx.functionBodies[id], target)) ==> NoDup(r.functionBodies[id].incomingBranches[target])
    ensures forall t :: t != target ==>
      (t in r.functionBodies[id].incomingBranches <==> t in idx.functionBodies[id].incomingBranches)
    ensures forall t :: t != target && t in idx.functionBodies[id].incomingBranches ==>
      r.functionBodies[id].incomingBranches[t] == idx.functionBodies[id].incomingBranches[t]
  {
    var fb := idx.functionBodies[id];
    var list := Incoming(fb, target);
    var list' := if source in list then list else list + [source];
    idx.(functionBodies := idx.functionBodies[id := fb.(incomingBranches := fb.incomingBranches[target := list'])])
  }

  /** One label reference of an instruction: a label use, and the edge from
      the enclosing block's label unless the instruction is a `phi` or the
      block has no label. */
  function IndexRef(idx: HIRIndex, id: nat, blockLabel: Option<Spanned<string>>, mnemonic: string,
                    ref: Spanned<string>): (r: HIRIndex)
    requires id < |idx.functionBodies|
    ensures OnlyScopeChanges(idx, r, id)
  {
    var idx1 := AddFuncLocal(idx, id, SymbolKind.Label, Use, ref.span, ref.value);
    if mnemonic != "phi" && blockLabel.Some? then AddEdge(idx1, id, ref.value, blockLabel.value) else idx1
  }

  /** The label references of one instruction, in order. */
  function IndexRefs(idx: HIRIndex, id: nat, blockLabel: Option<Spanned<string>>, mnemonic: string,
                     refs: seq<Spanned<string>>): (r: HIRIndex)
    requires id < |idx.functionBodies|
    ensures OnlyScopeChanges(idx, r, id)
    decreases |refs|
  {
    if refs == [] then idx
    else IndexRefs(IndexRef(idx, id, blockLabel, mnemonic, refs[0]), id, blockLabel, mnemonic, refs[1..])
  }

  /** One instruction: an assignment target is a local-variable definition;
      then the instruction's label references. */
  function IndexInstruction(idx: HIRIndex, id: nat, blockLabel: Option<Spanned<string>>, i: Instruction): (r: HIRIndex)
    requires id < |idx.functionBodies|
    ensures OnlyScopeChanges(idx, r, id)
  {
    var idx1 := if i.assignmentTarget.Some?
      then AddFuncLocal(idx, id, SymbolKind.LocalVar, Def, i.assignmentTarget.value.span, i.assignmentTarget.value.value)
      else idx;
    IndexRefs(idx1, id, blockLabel, i.mnemonic.value, i.basicBlockRefs)
  }

  /** The instructions of one block, in order. */
  function IndexInstructions(idx: HIRIndex, id: nat, blockLabel: Option<Spanned<string>>,
                             instrs: seq<Instruction>): (r: HIRIndex)
    requires id < |idx.functionBodies|
    ensures OnlyScopeChanges(idx, r, id)
    decreases |instrs|
  {
    if instrs == [] then idx
    else IndexInstructions(IndexInstruction(idx, id, blockLabel, instrs[0]), id, blockLabel, instrs[1..])
  }

  /** One block: its label is a label definition; then its instructions. */
  function IndexBlock(idx: HIRIndex, id: nat, b: BasicBlock): (r: HIRIndex)
    requires id < |idx.functionBodies|
    ensures OnlyScopeChanges(idx, r, id)
  {
    var idx1 := if b.blockLabel.Some?
      then AddFuncLocal(idx, id, SymbolKind.Label, Def, b.blockLabel.value.span, b.blockLabel.value.value)
      else idx;
    IndexInstructions(idx1, id, b.blockLabel, b.instructions)
  }

  /** The blocks of a body, in order. */
  function IndexBlocks(idx: HIRIndex, id: nat, blocks: seq<BasicBlock>): (r: HIRIndex)
    requires id < |idx.functionBodies|
    ensures OnlyScopeChanges(idx, r, id)
    decreases |blocks|
  {
    if blocks == [] then idx
    else IndexBlocks(IndexBlock(idx, id, blocks[0]), id, blocks[1..])
  }

  /** The arguments of a definition are local-variable definitions. */
  function IndexArgs(idx: HIRIndex, id: nat, args: seq<FuncArg>): (r: HIRIndex)
    requires id < |idx.functionBodies|
    ensures OnlyScopeChanges(idx, r, id)
    ensures r.functionBodies[id].incomingBranches == idx.functionBodies[id].incomingBranches
    ensures r.functionBodies[id].labels == idx.functionBodies[id].labels
    decreases |args|
  {
    if args == [] then idx
    else
      var idx1 := AddFuncLocal(idx, id, SymbolKind.LocalVar, Def, args[0].name.span, args[0].name.value);
      IndexArgs(idx1, id, args[1..])
  }

  /** A fresh index record for a function definition, its scopes still empty. */
  function NewBody(s: Statement): (fb: FunctionBody)
    requires s.FuncDef?
    ensures SkeletonOf(fb) == DefSkeleton(s)
    ensures fb.labels == map[] && fb.localVars == map[] && fb.incomingBranches == map[]
  {
    FunctionBody(s.signature.name, Span(s.defineKw.start, s.body.closingBracket.end),
                 map[], map[], s.body.basicBlocks, map[])
  }

  /** Pass 1 on the head of a definition: a `Def` of the function name,
      then a fresh function body holding the arguments. */
  function DefinitionHead(idx: HIRIndex, s: Statement): (r: HIRIndex)
    requires s.FuncDef?
    ensures |r.functionBodies| == |idx.functionBodies| + 1
    ensures SameSkeletons(idx, r)
    ensures SkeletonOf(r.functionBodies[|idx.functionBodies|]) == DefSkeleton(s)
    ensures r.functionBodies[|idx.functionBodies|].incomingBranches == map[]
    ensures forall j :: 0 <= j < |idx.functionBodies| ==> r.functionBodies[j] == idx.functionBodies[j]
    ensures r.globalVars == idx.globalVars && r.dbgAnnotations == idx.dbgAnnotations
    ensures r.functions == Add(idx.functions, Occurrence(s.signature.name.value, s.signature.name.span, Def))
  {
    var idx1 := AddGlobal(idx, SymbolKind.Function, Def, s.signature.name.span, s.signature.name.value);
    var idx2 := idx1.(functionBodies := idx1.functionBodies + [NewBody(s)]);
    IndexArgs(idx2, |idx.functionBodies|, s.signature.args)
  }

  /** Pass 1 on a definition: its head, then its blocks in the new body. */
  function AddDefinition(idx: HIRIndex, s: Statement): (r: HIRIndex)
    requires s.FuncDef?
    ensures |r.functionBodies| == |idx.functionBodies| + 1
    ensures SameSkeletons(idx, r)
    ensures SkeletonOf(r.functionBodies[|idx.functionBodies|]) == DefSkeleton(s)
    ensures forall j :: 0 <= j < |idx.functionBodies| ==> r.functionBodies[j] == idx.functionBodies[j]
    ensures r.globalVars == idx.globalVars && r.dbgAnnotations == idx.dbgAnnotations
    ensures r.functions == Add(idx.functions, Occurrence(s.signature.name.value, s.signature.name.span, Def))
  {
    IndexBlocks(DefinitionHead(idx, s), |idx.functionBodies|, s.body.basicBlocks)
  }

  /** Pass 1 on one statement. Exactly a definition creates a function body. */
  function IndexStatement(idx: HIRIndex, s: Statement): (r: HIRIndex)
    ensures |r.functionBodies| == |idx.functionBodies| + (if s.FuncDef? then 1 else 0)
    ensures SameSkeletons(idx, r)
    ensures s.FuncDef? ==> SkeletonOf(r.functionBodies[|idx.functionBodies|]) == DefSkeleton(s)
    ensures forall j :: 0 <= j < |idx.functionBodies| ==> r.functionBodies[j] == idx.functionBodies[j]
  {
    match s
    case GlobalVar(name, _) => AddGlobal(idx, SymbolKind.GlobalVar, Def, name.span, name.value)
    case FuncDecl(signature, _) => AddGlobal(idx, SymbolKind.Function, Decl, signature.name.span, signature.name.value)
    case FuncDependencies => idx
    case DbgAnnotation(name, _) => AddGlobal(idx, SymbolKind.DbgAnnotation, Def, name.span, name.value)
    case FuncDef(_, _, _) => AddDefinition(idx, s)
  }

  /** A declaration only adds a `Decl` of the function name, unless that
      span is recorded already; nothing else changes. */
  lemma DeclRecorded(idx: HIRIndex, s: Statement)
    requires s.FuncDecl?
    ensures var r := IndexStatement(idx, s);
      var name := s.signature.name;
      && r.functionBodies == idx.functionBodies
      && r.globalVars == idx.globalVars && r.dbgAnnotations == idx.dbgAnnotations
      && Recorded(r.functions, name.value, name.span)
      && (forall n :: n != name.value ==> (n in r.functions <==> n in idx.functions))
      && (forall n :: n != name.value && n in idx.functions ==> r.functions[n] == idx.functions[n])
      && r.functions[name.value].defs == Lookup(idx.functions, name.value).defs
      && r.functions[name.value].uses == Lookup(idx.functions, name.value).uses
      && (r.functions[name.value].decls == Lookup(idx.functions, name.value).decls
          || r.functions[name.value].decls == Lookup(idx.functions, name.value).decls + [name.span])
  {
  }

  /** The function definitions among `stmts`, in order. */
  function FuncDefs(stmts: seq<Statement>): (r: seq<Statement>)
    ensures forall i :: 0 <= i < |r| ==> r[i].FuncDef?
  {
    if stmts == [] then []
    else if stmts[0].FuncDef? then [stmts[0]] + FuncDefs(stmts[1..])
    else FuncDefs(stmts[1..])
  }

  /** Pass 1 over all statements, in order. */
  function Pass1(idx: HIRIndex, stmts: seq<Statement>): (r: HIRIndex)
    ensures |r.functionBodies| == |idx.functionBodies| + |FuncDefs(stmts)|
    ensures SameSkeletons(idx, r)
    ensures forall j :: 0 <= j < |idx.functionBodies| ==> r.functionBodies[j] == idx.functionBodies[j]
    decreases |stmts|
  {
    if stmts == [] then idx else Pass1(IndexStatement(idx, stmts[0]), stmts[1..])
  }

  /** The skeletons of the bodies from position `base` on are those of `defs`. */
  predicate SkeletonsFrom(bodies: seq<FunctionBody>, base: nat, defs: seq<Statement>) {
    && base + |defs| <= |bodies|
    && forall j :: 0 <= j < |defs| ==> defs[j].FuncDef? && SkeletonOf(bodies[base + j]) == DefSkeleton(defs[j])
  }

  /** A body with the skeleton of `d`, followed by bodies with those of `rest`. */
  lemma SkeletonsCons(bodies: seq<FunctionBody>, base: nat, d: Statement, rest: seq<Statement>)
    requires d.FuncDef? && base < |bodies| && SkeletonOf(bodies[base]) == DefSkeleton(d)
    requires SkeletonsFrom(bodies, base + 1, rest)
    ensures SkeletonsFrom(bodies, base, [d] + rest)
  {
    var defs := [d] + rest;
    forall j | 0 <= j < |defs|
      ensures defs[j].FuncDef? && SkeletonOf(bodies[base + j]) == DefSkeleton(defs[j])
    {
      if j > 0 {
        assert defs[j] == rest[j - 1];
        assert base + j == (base + 1) + (j - 1);
      }
    }
  }

  /** After a definition, its body comes first, then those of the definitions after it. */
  lemma SkeletonsAfterDef(idx: HIRIndex, idx1: HIRIndex, r: HIRIndex, d: Statement, rest: seq<Statement>)
    requires d.FuncDef? && |idx1.functionBodies| == |idx.functionBodies| + 1
    requires SkeletonOf(idx1.functionBodies[|idx.functionBodies|]) == DefSkeleton(d)
    requires SameSkeletons(idx1, r) && SkeletonsFrom(r.functionBodies, |idx1.functionBodies|, rest)
    ensures SkeletonsFrom(r.functionBodies, |idx.functionBodies|, [d] + rest)
  {
    assert SkeletonOf(r.functionBodies[|idx.functionBodies|]) == SkeletonOf(idx1.functionBodies[|idx.functionBodies|]);
    SkeletonsCons(r.functionBodies, |idx.functionBodies|, d, rest);
  }

  /** Pass 1 appends one function body per definition, in the order of the
      definitions, each with that definition's name, range and blocks. */
  lemma {:induction false} Pass1Skeletons(idx: HIRIndex, stmts: seq<Statement>)
    ensures SkeletonsFrom(Pass1(idx, stmts).functionBodies, |idx.functionBodies|, FuncDefs(stmts))
    decreases |stmts|
  {
    if stmts != [] {
      var idx1 := IndexStatement(idx, stmts[0]);
      var r := Pass1(idx1, stmts[1..]);
      assert r == Pass1(idx, stmts);
      Pass1Skeletons(idx1, stmts[1..]);
      if stmts[0].FuncDef? {
        SkeletonsAfterDef(idx, idx1, r, stmts[0], FuncDefs(stmts[1..]));
        assert FuncDefs(stmts) == [stmts[0]] + FuncDefs(stmts[1..]);
      } else {
        assert FuncDefs(stmts) == FuncDefs(stmts[1..]);
      }
    }
  }

  /* ---------------- Pass 2: uses from the token stream ---------------- */

  /** The first function body from `i` on whose complete range contains `pos`. */
  function FindBody(bodies: seq<FunctionBody>, pos: nat, i: nat): (r: Option<nat>)
    requires i <= |bodies|
    ensures r.Some? ==>
      && i <= r.value < |bodies| && bodies[r.value].completeRange.Contains(pos)
      && forall j :: i <= j < r.value ==> !bodies[j].completeRange.Contains(pos)
    ensures r.None? <==> forall j :: i <= j < |bodies| ==> !bodies[j].completeRange.Contains(pos)
    decreases |bodies| - i
  {
    if i == |bodies| then None
    else if bodies[i].completeRange.Contains(pos) then Some(i)
    else FindBody(bodies, pos, i + 1)
  }

  /** The cached current function: kept while its range contains `pos`,
      otherwise searched again from the first body. */
  function ResolveCursor(bodies: seq<FunctionBody>, cursor: Option<nat>, pos: nat): (r: Option<nat>)
    requires cursor.Some? ==> cursor.value < |bodies|
    ensures r.Some? ==> r.value < |bodies| && bodies[r.value].completeRange.Contains(pos)
    ensures r.None? <==> forall j :: 0 <= j < |bodies| ==> !bodies[j].completeRange.Contains(pos)
  {
    if cursor.None? || !bodies[cursor.value].completeRange.Contains(pos) then FindBody(bodies, pos, 0)
    else cursor
  }

  /** The state pass 2 carries from token to token. */
  datatype Walk = Walk(index: HIRIndex, cursor: Option<nat>) {
    predicate CursorOk() {
      cursor.Some? ==> cursor.value < |index.functionBodies|
    }
  }

  /** The occurrence one token of the stream makes in the global table of
      kind `k`, given the names of the function table: a global name is a
      function use when it names a function and a global-variable use
      otherwise; a debug reference is an annotation use. */
  function TokenOcc(t: Spanned<Token>, k: SymbolKind, functions: set<string>): seq<Occurrence> {
    match t.value
    case GlobalName(n) =>
      if (k.Function? && n in functions) || (k.GlobalVar? && n !in functions) then [Occurrence(n, t.span, Use)] else []
    case DebugRef(n) => if k.DbgAnnotation? then [Occurrence(n, t.span, Use)] else []
    case _ => []
  }

  /** The occurrences a token stream makes in the global table of kind `k`. */
  function TokenOccs(tokens: seq<Spanned<Token>>, k: SymbolKind, functions: set<string>): seq<Occurrence>
    decreases |tokens|
  {
    if tokens == [] then [] else TokenOcc(tokens[0], k, functions) + TokenOccs(tokens[1..], k, functions)
  }

  /** The current function after a token: a local name resolves it again,
      any other token leaves it alone. */
  function NextCursor(bodies: seq<FunctionBody>, cursor: Option<nat>, t: Spanned<Token>): (r: Option<nat>)
    requires cursor.Some? ==> cursor.value < |bodies|
    ensures r.Some? ==> r.value < |bodies|
  {
    if t.value.LocalName? then ResolveCursor(bodies, cursor, t.span.start) else cursor
  }

  /** The local-variable use a token makes in body `j`, once the current
      function after it is `c`: a local name resolved to `j` is one. */
  function LocalUseOf(t: Spanned<Token>, c: Option<nat>, j: nat): seq<Occurrence> {
    if t.value.LocalName? && c == Some(j) then [Occurrence(t.value.name, t.span, Use)] else []
  }

  /** The local-variable uses a token stream makes in body `j`, walking the
      current function from `cursor`. */
  function LocalUses(bodies: seq<FunctionBody>, cursor: Option<nat>, tokens: seq<Spanned<Token>>, j: nat): seq<Occurrence>
    requires cursor.Some? ==> cursor.value < |bodies|
    decreases |tokens|
  {
    if tokens == [] then []
    else
      var c := NextCursor(bodies, cursor, tokens[0]);
      LocalUseOf(tokens[0], c, j) + LocalUses(bodies, c, tokens[1..], j)
  }

  /** Pass 2 on one token. A global name is a function use exactly when the
      name is a key of the function table, else a global-variable use. A
      local name is a use in the function whose range contains its start,
      and is dropped when there is none. Nothing else changes: the other
      tables, the other bodies and the rest of the current body stay. */
  function IndexToken(w: Walk, t: Spanned<Token>): (r: Walk)
    requires w.CursorOk()
    ensures r.CursorOk()
    ensures |r.index.functionBodies| == |w.index.functionBodies| && SameSkeletons(w.index, r.index)
    ensures r.index.functions.Keys == w.index.functions.Keys
    ensures r.cursor == NextCursor(w.index.functionBodies, w.cursor, t)
    ensures forall j :: 0 <= j < |w.index.functionBodies| && Some(j) != r.cursor ==>
      r.index.functionBodies[j] == w.index.functionBodies[j]
    ensures !(t.value.GlobalName? || t.value.DebugRef? || t.value.LocalName?) ==> r == w
  {
    var idx := w.index;
    match t.value
    case GlobalName(n) =>
      if n in idx.functions then Walk(AddGlobal(idx, SymbolKind.Function, Use, t.span, n), w.cursor)
      else Walk(AddGlobal(idx, SymbolKind.GlobalVar, Use, t.span, n), w.cursor)
    case DebugRef(n) => Walk(AddGlobal(idx, SymbolKind.DbgAnnotation, Use, t.span, n), w.cursor)
    case LocalName(n) =>
      var c := ResolveCursor(idx.functionBodies, w.cursor, t.span.start);
      if c.Some? then Walk(AddFuncLocal(idx, c.value, SymbolKind.LocalVar, Use, t.span, n), c)
      else Walk(idx, c)
    case _ => w
  }

  /** Pass 2 over the token stream, in order. */
  function Pass2(w: Walk, tokens: seq<Spanned<Token>>): (r: Walk)
    requires w.CursorOk()
    ensures r.CursorOk()
    ensures |r.index.functionBodies| == |w.index.functionBodies| && SameSkeletons(w.index, r.index)
    ensures r.index.functions.Keys == w.index.functions.Keys
    decreases |tokens|
  {
    if tokens == [] then w else Pass2(IndexToken(w, tokens[0]), tokens[1..])
  }

  /** `create_index`: pass 1 over the statements, then pass 2 over the
      tokens with no current function. */
  function CreateIndex(tokens: seq<Spanned<Token>>, stmts: seq<Statement>): (r: HIRIndex)
    ensures |r.functionBodies| == |FuncDefs(stmts)|
    ensures r.functions.Keys == Pass1(EmptyIndex, stmts).functions.Keys
  {
    Pass2(Walk(Pass1(EmptyIndex, stmts), None), tokens).index
  }

  /** The index has one function body per definition, in statement order,
      each with the definition's name, its range from `define` to `}` and
      its blocks. */
  lemma CreateIndexSkeletons(tokens: seq<Spanned<Token>>, stmts: seq<Statement>)
    ensures forall j :: 0 <= j < |FuncDefs(stmts)| ==>
      SkeletonOf(CreateIndex(tokens, stmts).functionBodies[j]) == DefSkeleton(FuncDefs(stmts)[j])
  {
    var idx := Pass1(EmptyIndex, stmts);
    Pass1Skeletons(EmptyIndex, stmts);
    var r := Pass2(Walk(idx, None), tokens).index;
    assert SameSkeletons(idx, r);
  }

  /* ---------------- The invariant through both passes ---------------- */

  /** `b` loses nothing of `a` and keeps the invariant if `a` had it. */
  ghost predicate Keeps(a: HIRIndex, b: HIRIndex) {
    Grows(a, b) && (Valid(a) ==> Valid(b))
  }

  lemma KeepsTransitive(a: HIRIndex, b: HIRIndex, c: HIRIndex)
    requires Keeps(a, b) && Keeps(b, c)
    ensures Keeps(a, c)
  {
    GrowsTransitive(a, b, c);
  }

  /** A change that leaves the reverse index alone and only extends tables
      and bodies keeps it sound. */
  lemma ReverseSoundSameEntries(a: HIRIndex, b: HIRIndex)
    requires ReverseSound(a) && Grows(a, b) && b.reverseIdx == a.reverseIdx
    ensures ReverseSound(b)
  {
    forall e | e in b.reverseIdx
      ensures e.key == e.value.span.start && Backed(b, e.value)
    {
      BackedGrows(a, b, e.value);
    }
  }

  lemma AddEdgeKeeps(idx: HIRIndex, id: nat, target: string, source: Spanned<string>)
    requires id < |idx.functionBodies|
    ensures Keeps(idx, AddEdge(idx, id, target, source))
  {
    var r := AddEdge(idx, id, target, source);
    var fb := idx.functionBodies[id];
    var fb' := r.functionBodies[id];
    assert EdgesGrow(fb.incomingBranches, fb'.incomingBranches);
    assert Grows(idx, r);
    if Valid(idx) {
      forall j, t | 0 <= j < |r.functionBodies| && t in r.functionBodies[j].incomingBranches
        ensures NoDup(r.functionBodies[j].incomingBranches[t])
      {
        if j == id && t == target {
          if target in fb.incomingBranches {
            assert NoDup(fb.incomingBranches[target]);
          }
        }
      }
      ReverseSoundSameEntries(idx, r);
    }
  }

  lemma RefKeeps(idx: HIRIndex, id: nat, blockLabel: Option<Spanned<string>>, mnemonic: string, ref: Spanned<string>)
    requires id < |idx.functionBodies|
    ensures Keeps(idx, IndexRef(idx, id, blockLabel, mnemonic, ref))
  {
    var idx1 := AddFuncLocal(idx, id, SymbolKind.Label, Use, ref.span, ref.value);
    AddFuncLocalValid(idx, id, SymbolKind.Label, Use, ref.span, ref.value);
    if mnemonic != "phi" && blockLabel.Some? {
      AddEdgeKeeps(idx1, id, ref.value, blockLabel.value);
      KeepsTransitive(idx, idx1, IndexRef(idx, id, blockLabel, mnemonic, ref));
    }
  }

  lemma {:induction false} IndexRefsKeeps(idx: HIRIndex, id: nat, blockLabel: Option<Spanned<string>>, mnemonic: string,
                                          refs: seq<Spanned<string>>)
    requires id < |idx.functionBodies|
    ensures Keeps(idx, IndexRefs(idx, id, blockLabel, mnemonic, refs))
    decreases |refs|
  {
    if refs != [] {
      var idx1 := IndexRef(idx, id, blockLabel, mnemonic, refs[0]);
      RefKeeps(idx, id, blockLabel, mnemonic, refs[0]);
      IndexRefsKeeps(idx1, id, blockLabel, mnemonic, refs[1..]);
      KeepsTransitive(idx, idx1, IndexRefs(idx1, id, blockLabel, mnemonic, refs[1..]));
    }
  }

  lemma InstructionKeeps(idx: HIRIndex, id: nat, blockLabel: Option<Spanned<string>>, i: Instruction)
    requires id < |idx.functionBodies|
    ensures Keeps(idx, IndexInstruction(idx, id, blockLabel, i))
  {
    match i.assignmentTarget
    case None =>
      IndexRefsKeeps(idx, id, blockLabel, i.mnemonic.value, i.basicBlockRefs);
    case Some(target) =>
      var idx1 := AddFuncLocal(idx, id, SymbolKind.LocalVar, Def, target.span, target.value);
      AddFuncLocalValid(idx, id, SymbolKind.LocalVar, Def, target.span, target.value);
      IndexRefsKeeps(idx1, id, blockLabel, i.mnemonic.value, i.basicBlockRefs);
      KeepsTransitive(idx, idx1, IndexInstruction(idx, id, blockLabel, i));
  }

  lemma {:induction false} IndexInstructionsKeeps(idx: HIRIndex, id: nat, blockLabel: Option<Spanned<string>>,
                                                  instrs: seq<Instruction>)
    requires id < |idx.functionBodies|
    ensures Keeps(idx, IndexInstructions(idx, id, blockLabel, instrs))
    decreases |instrs|
  {
    if instrs != [] {
      var idx1 := IndexInstruction(idx, id, blockLabel, instrs[0]);
      InstructionKeeps(idx, id, blockLabel, instrs[0]);
      IndexInstructionsKeeps(idx1, id, blockLabel, instrs[1..]);
      KeepsTransitive(idx, idx1, IndexInstructions(idx1, id, blockLabel, instrs[1..]));
    }
  }

  lemma BlockKeeps(idx: HIRIndex, id: nat, b: BasicBlock)
    requires id < |idx.functionBodies|
    ensures Keeps(idx, IndexBlock(idx, id, b))
  {
    var idx1 := if b.blockLabel.Some?
      then AddFuncLocal(idx, id, SymbolKind.Label, Def, b.blockLabel.value.span, b.blockLabel.value.value)
      else idx;
    if b.blockLabel.Some? {
      AddFuncLocalValid(idx, id, SymbolKind.Label, Def, b.blockLabel.value.span, b.blockLabel.value.value);
    }
    IndexInstructionsKeeps(idx1, id, b.blockLabel, b.instructions);
    KeepsTransitive(idx, idx1, IndexBlock(idx, id, b));
  }

  lemma {:induction false} IndexBlocksKeeps(idx: HIRIndex, id: nat, blocks: seq<BasicBlock>)
    requires id < |idx.functionBodies|
    ensures Keeps(idx, IndexBlocks(idx, id, blocks))
    decreases |blocks|
  {
    if blocks != [] {
      var idx1 := IndexBlock(idx, id, blocks[0]);
      BlockKeeps(idx, id, blocks[0]);
      IndexBlocksKeeps(idx1, id, blocks[1..]);
      KeepsTransitive(idx, idx1, IndexBlocks(idx1, id, blocks[1..]));
    }
  }

  lemma {:induction false} IndexArgsKeeps(idx: HIRIndex, id: nat, args: seq<FuncArg>)
    requires id < |idx.functionBodies|
    ensures Keeps(idx, IndexArgs(idx, id, args))
    decreases |args|
  {
    if args != [] {
      var idx1 := AddFuncLocal(idx, id, SymbolKind.LocalVar, Def, args[0].name.span, args[0].name.value);
      AddFuncLocalValid(idx, id, SymbolKind.LocalVar, Def, args[0].name.span, args[0].name.value);
      IndexArgsKeeps(idx1, id, args[1..]);
      KeepsTransitive(idx, idx1, IndexArgs(idx1, id, args[1..]));
    }
  }

  /** Appending the fresh record of a definition keeps the invariant. */
  lemma PushBodyKeeps(idx: HIRIndex, s: Statement)
    requires s.FuncDef?
    ensures Keeps(idx, idx.(functionBodies := idx.functionBodies + [NewBody(s)]))
  {
    var r := idx.(functionBodies := idx.functionBodies + [NewBody(s)]);
    assert Grows(idx, r);
    if Valid(idx) {
      assert TablesUnique(r);
      assert EdgesUnique(r);
      ReverseSoundSameEntries(idx, r);
    }
  }

  lemma {:induction false} IndexStatementKeeps(idx: HIRIndex, s: Statement)
    ensures Keeps(idx, IndexStatement(idx, s))
  {
    match s
    case GlobalVar(name, _) => AddGlobalValid(idx, SymbolKind.GlobalVar, Def, name.span, name.value);
    case FuncDecl(signature, _) => AddGlobalValid(idx, SymbolKind.Function, Decl, signature.name.span, signature.name.value);
    case FuncDependencies =>
    case DbgAnnotation(name, _) => AddGlobalValid(idx, SymbolKind.DbgAnnotation, Def, name.span, name.value);
    case FuncDef(_, _, _) => FuncDefKeeps(idx, s);
  }

  lemma DefinitionHeadKeeps(idx: HIRIndex, s: Statement)
    requires s.FuncDef?
    ensures Keeps(idx, DefinitionHead(idx, s))
  {
    var idx1 := AddGlobal(idx, SymbolKind.Function, Def, s.signature.name.span, s.signature.name.value);
    AddGlobalValid(idx, SymbolKind.Function, Def, s.signature.name.span, s.signature.name.value);
    var idx2 := idx1.(functionBodies := idx1.functionBodies + [NewBody(s)]);
    PushBodyKeeps(idx1, s);
    KeepsTransitive(idx, idx1, idx2);
    IndexArgsKeeps(idx2, |idx.functionBodies|, s.signature.args);
    KeepsTransitive(idx, idx2, DefinitionHead(idx, s));
  }

  lemma FuncDefKeeps(idx: HIRIndex, s: Statement)
    requires s.FuncDef?
    ensures Keeps(idx, AddDefinition(idx, s))
  {
    var idx3 := DefinitionHead(idx, s);
    DefinitionHeadKeeps(idx, s);
    IndexBlocksKeeps(idx3, |idx.functionBodies|, s.body.basicBlocks);
    KeepsTransitive(idx, idx3, AddDefinition(idx, s));
  }

  lemma {:induction false} Pass1Keeps(idx: HIRIndex, stmts: seq<Statement>)
    ensures Keeps(idx, Pass1(idx, stmts))
    decreases |stmts|
  {
    if stmts != [] {
      var idx1 := IndexStatement(idx, stmts[0]);
      IndexStatementKeeps(idx, stmts[0]);
      Pass1Keeps(idx1, stmts[1..]);
      KeepsTransitive(idx, idx1, Pass1(idx1, stmts[1..]));
    }
  }

  lemma IndexTokenKeeps(w: Walk, t: Spanned<Token>)
    requires w.CursorOk()
    ensures Keeps(w.index, IndexToken(w, t).index)
  {
    match t.value
    case GlobalName(n) =>
      if n in w.index.functions {
        AddGlobalValid(w.index, SymbolKind.Function, Use, t.span, n);
      } else {
        AddGlobalValid(w.index, SymbolKind.GlobalVar, Use, t.span, n);
      }
    case DebugRef(n) => AddGlobalValid(w.index, SymbolKind.DbgAnnotation, Use, t.span, n);
    case LocalName(n) =>
      var c := ResolveCursor(w.index.functionBodies, w.cursor, t.span.start);
      if c.Some? {
        AddFuncLocalValid(w.index, c.value, SymbolKind.LocalVar, Use, t.span, n);
      }
    case _ =>
  }

  lemma {:induction false} Pass2Keeps(w: Walk, tokens: seq<Spanned<Token>>)
    requires w.CursorOk()
    ensures Keeps(w.index, Pass2(w, tokens).index)
    decreases |tokens|
  {
    if tokens != [] {
      var w1 := IndexToken(w, tokens[0]);
      IndexTokenKeeps(w, tokens[0]);
      Pass2Keeps(w1, tokens[1..]);
      KeepsTransitive(w.index, w1.index, Pass2(w1, tokens[1..]).index);
    }
  }

  /** Every index `create_index` builds satisfies the invariant: no span is
      listed twice for a name, no incoming-branch list repeats a source
      label, and every reverse-index entry sits at its span's start and is
      backed by the table of its kind and scope. */
  lemma CreateIndexValid(tokens: seq<Spanned<Token>>, stmts: seq<Statement>)
    ensures Valid(CreateIndex(tokens, stmts))
  {
    var idx := Pass1(EmptyIndex, stmts);
    var r := Pass2(Walk(idx, None), tokens);
    assert Valid(EmptyIndex);
    Pass1Keeps(EmptyIndex, stmts);
    Pass2Keeps(Walk(idx, None), tokens);
    assert r.index == CreateIndex(tokens, stmts);
  }

  /* ---------------- What pass 1 records for a definition ---------------- */

  /** Source label `source` is listed among the incoming branches of `target`. */
  predicate HasEdge(fb: FunctionBody, target: string, source: Spanned<string>) {
    target in fb.incomingBranches && source in fb.incomingBranches[target]
  }

  /** An instruction with this mnemonic and these references branches to
      `target`: it is not a `phi` and one of its references names `target`. */
  ghost predicate RefBranch(mnemonic: string, refs: seq<Spanned<string>>, target: string) {
    mnemonic != "phi" && exists i :: 0 <= i < |refs| && refs[i].value == target
  }

  /** Some instruction of `instrs` branches to `target`. */
  ghost predicate InstrsBranch(instrs: seq<Instruction>, target: string) {
    exists k :: 0 <= k < |instrs| && RefBranch(instrs[k].mnemonic.value, instrs[k].basicBlockRefs, target)
  }

  /** Some block labelled `source` has an instruction that branches to `target`. */
  ghost predicate BlocksBranch(blocks: seq<BasicBlock>, target: string, source: Spanned<string>) {
    exists n :: 0 <= n < |blocks| && blocks[n].blockLabel == Some(source) && InstrsBranch(blocks[n].instructions, target)
  }

  lemma AddEdgeHas(idx: HIRIndex, id: nat, target: string, source: Spanned<string>)
    requires id < |idx.functionBodies|
    ensures forall t, x :: HasEdge(AddEdge(idx, id, target, source).functionBodies[id], t, x) <==>
      HasEdge(idx.functionBodies[id], t, x) || (t == target && x == source)
  {
  }

  lemma RefEdges(idx: HIRIndex, id: nat, blockLabel: Option<Spanned<string>>, mnemonic: string, ref: Spanned<string>)
    requires id < |idx.functionBodies|
    ensures forall t, x :: HasEdge(IndexRef(idx, id, blockLabel, mnemonic, ref).functionBodies[id], t, x) <==>
      HasEdge(idx.functionBodies[id], t, x) || (blockLabel == Some(x) && mnemonic != "phi" && t == ref.value)
  {
    var idx1 := AddFuncLocal(idx, id, SymbolKind.Label, Use, ref.span, ref.value);
    assert idx1.functionBodies[id].incomingBranches == idx.functionBodies[id].incomingBranches;
    if mnemonic != "phi" && blockLabel.Some? {
      AddEdgeHas(idx1, id, ref.value, blockLabel.value);
    }
  }

  /** The edges after one instruction's references are the edges before
      plus, when the instruction is not a `phi` and its block is labelled,
      one edge from that label to each referenced label. */
  lemma {:induction false} IndexRefsEdges(idx: HIRIndex, id: nat, blockLabel: Option<Spanned<string>>, mnemonic: string,
                                          refs: seq<Spanned<string>>)
    requires id < |idx.functionBodies|
    ensures forall t, x :: HasEdge(IndexRefs(idx, id, blockLabel, mnemonic, refs).functionBodies[id], t, x) <==>
      HasEdge(idx.functionBodies[id], t, x) || (blockLabel == Some(x) && RefBranch(mnemonic, refs, t))
    decreases |refs|
  {
    if refs != [] {
      var idx1 := IndexRef(idx, id, blockLabel, mnemonic, refs[0]);
      RefEdges(idx, id, blockLabel, mnemonic, refs[0]);
      IndexRefsEdges(idx1, id, blockLabel, mnemonic, refs[1..]);
      forall t: string
        ensures RefBranch(mnemonic, refs, t) <==>
          mnemonic != "phi" && (refs[0].value == t || RefBranch(mnemonic, refs[1..], t))
      {
        if RefBranch(mnemonic, refs[1..], t) {
          var i :| 0 <= i < |refs[1..]| && refs[1..][i].value == t;
          assert refs[i + 1].value == t;
        }
        if RefBranch(mnemonic, refs, t) && refs[0].value != t {
          var i :| 0 <= i < |refs| && refs[i].value == t;
          assert refs[1..][i - 1].value == t;
        }
      }
    }
  }

  lemma InstructionEdges(idx: HIRIndex, id: nat, blockLabel: Option<Spanned<string>>, i: Instruction)
    requires id < |idx.functionBodies|
    ensures forall t, x :: HasEdge(IndexInstruction(idx, id, blockLabel, i).functionBodies[id], t, x) <==>
      HasEdge(idx.functionBodies[id], t, x) || (blockLabel == Some(x) && RefBranch(i.mnemonic.value, i.basicBlockRefs, t))
  {
    var idx1 := if i.assignmentTarget.Some?
      then AddFuncLocal(idx, id, SymbolKind.LocalVar, Def, i.assignmentTarget.value.span, i.assignmentTarget.value.value)
      else idx;
    assert idx1.functionBodies[id].incomingBranches == idx.functionBodies[id].incomingBranches;
    IndexRefsEdges(idx1, id, blockLabel, i.mnemonic.value, i.basicBlockRefs);
  }

  lemma {:induction false} IndexInstructionsEdges(idx: HIRIndex, id: nat, blockLabel: Option<Spanned<string>>,
                                                  instrs: seq<Instruction>)
    requires id < |idx.functionBodies|
    ensures forall t, x :: HasEdge(IndexInstructions(idx, id, blockLabel, instrs).functionBodies[id], t, x) <==>
      HasEdge(idx.functionBodies[id], t, x) || (blockLabel == Some(x) && InstrsBranch(instrs, t))
    decreases |instrs|
  {
    if instrs != [] {
      var i := instrs[0];
      var idx1 := IndexInstruction(idx, id, blockLabel, i);
      InstructionEdges(idx, id, blockLabel, i);
      IndexInstructionsEdges(idx1, id, blockLabel, instrs[1..]);
      forall t: string
        ensures InstrsBranch(instrs, t) <==>
          RefBranch(i.mnemonic.value, i.basicBlockRefs, t) || InstrsBranch(instrs[1..], t)
      {
        if InstrsBranch(instrs[1..], t) {
          var k :| 0 <= k < |instrs[1..]| && RefBranch(instrs[1..][k].mnemonic.value, instrs[1..][k].basicBlockRefs, t);
          assert instrs[k + 1] == instrs[1..][k];
        }
        if InstrsBranch(instrs, t) && !RefBranch(i.mnemonic.value, i.basicBlockRefs, t) {
          var k :| 0 <= k < |instrs| && RefBranch(instrs[k].mnemonic.value, instrs[k].basicBlockRefs, t);
          assert instrs[1..][k - 1] == instrs[k];
        }
      }
    }
  }

  lemma BlockEdges(idx: HIRIndex, id: nat, b: BasicBlock)
    requires id < |idx.functionBodies|
    ensures forall t, x :: HasEdge(IndexBlock(idx, id, b).functionBodies[id], t, x) <==>
      HasEdge(idx.functionBodies[id], t, x) || (b.blockLabel == Some(x) && InstrsBranch(b.instructions, t))
  {
    var idx1 := if b.blockLabel.Some?
      then AddFuncLocal(idx, id, SymbolKind.Label, Def, b.blockLabel.value.span, b.blockLabel.value.value)
      else idx;
    assert idx1.functionBodies[id].incomingBranches == idx.functionBodies[id].incomingBranches;
    IndexInstructionsEdges(idx1, id, b.blockLabel, b.instructions);
  }

  lemma {:induction false} IndexBlocksEdges(idx: HIRIndex, id: nat, blocks: seq<BasicBlock>)
    requires id < |idx.functionBodies|
    ensures forall t, x :: HasEdge(IndexBlocks(idx, id, blocks).functionBodies[id], t, x) <==>
      HasEdge(idx.functionBodies[id], t, x) || BlocksBranch(blocks, t, x)
    decreases |blocks|
  {
    if blocks != [] {
      var b := blocks[0];
      var idx1 := IndexBlock(idx, id, b);
      BlockEdges(idx, id, b);
      IndexBlocksEdges(idx1, id, blocks[1..]);
      forall t, x
        ensures BlocksBranch(blocks, t, x) <==>
          (b.blockLabel == Some(x) && InstrsBranch(b.instructions, t)) || BlocksBranch(blocks[1..], t, x)
      {
        if BlocksBranch(blocks[1..], t, x) {
          var n :| 0 <= n < |blocks[1..]| && blocks[1..][n].blockLabel == Some(x) && InstrsBranch(blocks[1..][n].instructions, t);
          assert blocks[n + 1] == blocks[1..][n];
        }
        if BlocksBranch(blocks, t, x) && !(b.blockLabel == Some(x) && InstrsBranch(b.instructions, t)) {
          var n :| 0 <= n < |blocks| && blocks[n].blockLabel == Some(x) && InstrsBranch(blocks[n].instructions, t);
          assert blocks[1..][n - 1] == blocks[n];
        }
      }
    }
  }

  /** The incoming branches of a defined function: label `x` is listed for
      `t` exactly when the block labelled `x` holds a non-`phi` instruction
      that references `t`. */
  lemma FuncDefEdges(idx: HIRIndex, s: Statement)
    requires s.FuncDef?
    ensures forall t, x :: HasEdge(AddDefinition(idx, s).functionBodies[|idx.functionBodies|], t, x) <==>
      BlocksBranch(s.body.basicBlocks, t, x)
  {
    IndexBlocksEdges(DefinitionHead(idx, s), |idx.functionBodies|, s.body.basicBlocks);
  }

  /* ---------------- What pass 1 records in a definition's scope ---------------- */

  /** The label references of an instruction, each a label use. */
  function RefOccs(refs: seq<Spanned<string>>): seq<Occurrence>
    decreases |refs|
  {
    if refs == [] then [] else [Occurrence(refs[0].value, refs[0].span, Use)] + RefOccs(refs[1..])
  }

  /** The assignment target of an instruction, if any, as a local-variable definition. */
  function TargetOccs(i: Instruction): seq<Occurrence> {
    if i.assignmentTarget.Some?
    then [Occurrence(i.assignmentTarget.value.value, i.assignmentTarget.value.span, Def)]
    else []
  }

  /** The label occurrences of a run of instructions: their references, in order. */
  function InstrsLabelOccs(instrs: seq<Instruction>): seq<Occurrence>
    decreases |instrs|
  {
    if instrs == [] then [] else RefOccs(instrs[0].basicBlockRefs) + InstrsLabelOccs(instrs[1..])
  }

  /** The local-variable occurrences of a run of instructions: their targets, in order. */
  function InstrsLocalOccs(instrs: seq<Instruction>): seq<Occurrence>
    decreases |instrs|
  {
    if instrs == [] then [] else TargetOccs(instrs[0]) + InstrsLocalOccs(instrs[1..])
  }

  /** The label occurrences of a block: its label, if any, as a label
      definition, then the references of its instructions. */
  function BlockLabelOccs(b: BasicBlock): seq<Occurrence> {
    (if b.blockLabel.Some? then [Occurrence(b.blockLabel.value.value, b.blockLabel.value.span, Def)] else [])
    + InstrsLabelOccs(b.instructions)
  }

  function BlocksLabelOccs(blocks: seq<BasicBlock>): seq<Occurrence>
    decreases |blocks|
  {
    if blocks == [] then [] else BlockLabelOccs(blocks[0]) + BlocksLabelOccs(blocks[1..])
  }

  function BlocksLocalOccs(blocks: seq<BasicBlock>): seq<Occurrence>
    decreases |blocks|
  {
    if blocks == [] then [] else InstrsLocalOccs(blocks[0].instructions) + BlocksLocalOccs(blocks[1..])
  }

  /** The arguments of a definition, each a local-variable definition. */
  function ArgOccs(args: seq<FuncArg>): seq<Occurrence>
    decreases |args|
  {
    if args == [] then [] else [Occurrence(args[0].name.value, args[0].name.span, Def)] + ArgOccs(args[1..])
  }

  /** The label occurrences pass 1 records for a definition, in order. */
  function LabelOccs(s: Statement): seq<Occurrence>
    requires s.FuncDef?
  {
    BlocksLabelOccs(s.body.basicBlocks)
  }

  /** The local-variable occurrences pass 1 records for a definition: the
      arguments first, then the assignment targets, in order. */
  function LocalOccs(s: Statement): seq<Occurrence>
    requires s.FuncDef?
  {
    ArgOccs(s.signature.args) + BlocksLocalOccs(s.body.basicBlocks)
  }

  /** From `a` to `b` the labels record exactly `labelOccs` and the local
      variables exactly `localOccs`. */
  predicate ScopeAdds(a: FunctionBody, b: FunctionBody, labelOccs: seq<Occurrence>, localOccs: seq<Occurrence>) {
    b.labels == AddAll(a.labels, labelOccs) && b.localVars == AddAll(a.localVars, localOccs)
  }

  lemma ScopeAddsThen(a: FunctionBody, b: FunctionBody, c: FunctionBody,
                      l1: seq<Occurrence>, v1: seq<Occurrence>, l2: seq<Occurrence>, v2: seq<Occurrence>)
    requires ScopeAdds(a, b, l1, v1) && ScopeAdds(b, c, l2, v2)
    ensures ScopeAdds(a, c, l1 + l2, v1 + v2)
  {
    AddAllAppend(a.labels, l1, l2);
    AddAllAppend(a.localVars, v1, v2);
  }

  /** The scope of `fb` is the one pass 1 builds for definition `d`, from
      empty tables. */
  predicate ScopeOf(fb: FunctionBody, d: Statement)
    requires d.FuncDef?
  {
    fb.labels == AddAll(map[], LabelOccs(d)) && fb.localVars == AddAll(map[], LocalOccs(d))
  }

  /** One reference records exactly a label use of its name and span. */
  lemma RefRecords(idx: HIRIndex, id: nat, blockLabel: Option<Spanned<string>>, mnemonic: string, ref: Spanned<string>)
    requires id < |idx.functionBodies|
    ensures ScopeAdds(idx.functionBodies[id], IndexRef(idx, id, blockLabel, mnemonic, ref).functionBodies[id],
                      [Occurrence(ref.value, ref.span, Use)], [])
  {
    AddAllOne(idx.functionBodies[id].labels, Occurrence(ref.value, ref.span, Use));
    AddAllOne(idx.functionBodies[id].localVars, Occurrence(ref.value, ref.span, Use));
  }

  lemma {:induction false} IndexRefsRecords(idx: HIRIndex, id: nat, blockLabel: Option<Spanned<string>>, mnemonic: string,
                                            refs: seq<Spanned<string>>)
    requires id < |idx.functionBodies|
    ensures ScopeAdds(idx.functionBodies[id], IndexRefs(idx, id, blockLabel, mnemonic, refs).functionBodies[id],
                      RefOccs(refs), [])
    decreases |refs|
  {
    if refs != [] {
      var idx1 := IndexRef(idx, id, blockLabel, mnemonic, refs[0]);
      var o := Occurrence(refs[0].value, refs[0].span, Use);
      RefRecords(idx, id, blockLabel, mnemonic, refs[0]);
      IndexRefsRecords(idx1, id, blockLabel, mnemonic, refs[1..]);
      ScopeAddsThen(idx.functionBodies[id], idx1.functionBodies[id],
                    IndexRefs(idx1, id, blockLabel, mnemonic, refs[1..]).functionBodies[id],
                    [o], [], RefOccs(refs[1..]), []);
    }
  }

  /** One instruction records exactly its target as a local-variable
      definition and its references as label uses. */
  lemma InstructionRecords(idx: HIRIndex, id: nat, blockLabel: Option<Spanned<string>>, i: Instruction)
    requires id < |idx.functionBodies|
    ensures ScopeAdds(idx.functionBodies[id], IndexInstruction(idx, id, blockLabel, i).functionBodies[id],
                      RefOccs(i.basicBlockRefs), TargetOccs(i))
  {
    match i.assignmentTarget
    case None =>
      IndexRefsRecords(idx, id, blockLabel, i.mnemonic.value, i.basicBlockRefs);
    case Some(target) =>
      var o := Occurrence(target.value, target.span, Def);
      var idx1 := AddFuncLocal(idx, id, SymbolKind.LocalVar, Def, target.span, target.value);
      AddAllOne(idx.functionBodies[id].localVars, o);
      assert ScopeAdds(idx.functionBodies[id], idx1.functionBodies[id], [], [o]);
      IndexRefsRecords(idx1, id, blockLabel, i.mnemonic.value, i.basicBlockRefs);
      ScopeAddsThen(idx.functionBodies[id], idx1.functionBodies[id],
                    IndexInstruction(idx, id, blockLabel, i).functionBodies[id],
                    [], [o], RefOccs(i.basicBlockRefs), []);
      assert [] + RefOccs(i.basicBlockRefs) == RefOccs(i.basicBlockRefs);
      assert [o] + [] == [o];
  }

  lemma {:induction false} IndexInstructionsRecords(idx: HIRIndex, id: nat, blockLabel: Option<Spanned<string>>,
                                                    instrs: seq<Instruction>)
    requires id < |idx.functionBodies|
    ensures ScopeAdds(idx.functionBodies[id], IndexInstructions(idx, id, blockLabel, instrs).functionBodies[id],
                      InstrsLabelOccs(instrs), InstrsLocalOccs(instrs))
    decreases |instrs|
  {
    if instrs != [] {
      var idx1 := IndexInstruction(idx, id, blockLabel, instrs[0]);
      InstructionRecords(idx, id, blockLabel, instrs[0]);
      IndexInstructionsRecords(idx1, id, blockLabel, instrs[1..]);
      ScopeAddsThen(idx.functionBodies[id], idx1.functionBodies[id],
                    IndexInstructions(idx1, id, blockLabel, instrs[1..]).functionBodies[id],
                    RefOccs(instrs[0].basicBlockRefs), TargetOccs(instrs[0]),
                    InstrsLabelOccs(instrs[1..]), InstrsLocalOccs(instrs[1..]));
    }
  }

  /** One block records exactly its label as a label definition, then what
      its instructions record. */
  lemma BlockRecords(idx: HIRIndex, id: nat, b: BasicBlock)
    requires id < |idx.functionBodies|
    ensures ScopeAdds(idx.functionBodies[id], IndexBlock(idx, id, b).functionBodies[id],
                      BlockLabelOccs(b), InstrsLocalOccs(b.instructions))
  {
    match b.blockLabel
    case None =>
      IndexInstructionsRecords(idx, id, b.blockLabel, b.instructions);
      assert [] + InstrsLabelOccs(b.instructions) == InstrsLabelOccs(b.instructions);
    case Some(lbl) =>
      var o := Occurrence(lbl.value, lbl.span, Def);
      var idx1 := AddFuncLocal(idx, id, SymbolKind.Label, Def, lbl.span, lbl.value);
      AddAllOne(idx.functionBodies[id].labels, o);
      assert ScopeAdds(idx.functionBodies[id], idx1.functionBodies[id], [o], []);
      IndexInstructionsRecords(idx1, id, b.blockLabel, b.instructions);
      ScopeAddsThen(idx.functionBodies[id], idx1.functionBodies[id], IndexBlock(idx, id, b).functionBodies[id],
                    [o], [], InstrsLabelOccs(b.instructions), InstrsLocalOccs(b.instructions));
      assert [] + InstrsLocalOccs(b.instructions) == InstrsLocalOccs(b.instructions);
  }

  lemma {:induction false} IndexBlocksRecords(idx: HIRIndex, id: nat, blocks: seq<BasicBlock>)
    requires id < |idx.functionBodies|
    ensures ScopeAdds(idx.functionBodies[id], IndexBlocks(idx, id, blocks).functionBodies[id],
                      BlocksLabelOccs(blocks), BlocksLocalOccs(blocks))
    decreases |blocks|
  {
    if blocks != [] {
      var idx1 := IndexBlock(idx, id, blocks[0]);
      BlockRecords(idx, id, blocks[0]);
      IndexBlocksRecords(idx1, id, blocks[1..]);
      ScopeAddsThen(idx.functionBodies[id], idx1.functionBodies[id],
                    IndexBlocks(idx1, id, blocks[1..]).functionBodies[id],
                    BlockLabelOccs(blocks[0]), InstrsLocalOccs(blocks[0].instructions),
                    BlocksLabelOccs(blocks[1..]), BlocksLocalOccs(blocks[1..]));
    }
  }

  /** The arguments record exactly one local-variable definition each. */
  lemma {:induction false} IndexArgsRecords(idx: HIRIndex, id: nat, args: seq<FuncArg>)
    requires id < |idx.functionBodies|
    ensures ScopeAdds(idx.functionBodies[id], IndexArgs(idx, id, args).functionBodies[id], [], ArgOccs(args))
    decreases |args|
  {
    if args != [] {
      var o := Occurrence(args[0].name.value, args[0].name.span, Def);
      var idx1 := AddFuncLocal(idx, id, SymbolKind.LocalVar, Def, args[0].name.span, args[0].name.value);
      AddAllOne(idx.functionBodies[id].localVars, o);
      assert ScopeAdds(idx.functionBodies[id], idx1.functionBodies[id], [], [o]);
      IndexArgsRecords(idx1, id, args[1..]);
      ScopeAddsThen(idx.functionBodies[id], idx1.functionBodies[id], IndexArgs(idx1, id, args[1..]).functionBodies[id],
                    [], [o], [], ArgOccs(args[1..]));
    }
  }

  /** The scope pass 1 builds for a definition is exactly its occurrences
      recorded into empty tables: the arguments and then the assignment
      targets as local-variable definitions, each block label as a label
      definition and each label reference as a label use, in order. */
  lemma FuncDefScope(idx: HIRIndex, s: Statement)
    requires s.FuncDef?
    ensures ScopeOf(AddDefinition(idx, s).functionBodies[|idx.functionBodies|], s)
  {
    var id := |idx.functionBodies|;
    var idx1 := AddGlobal(idx, SymbolKind.Function, Def, s.signature.name.span, s.signature.name.value);
    var idx2 := idx1.(functionBodies := idx1.functionBodies + [NewBody(s)]);
    var idx3 := DefinitionHead(idx, s);
    assert idx2.functionBodies[id] == NewBody(s);
    IndexArgsRecords(idx2, id, s.signature.args);
    IndexBlocksRecords(idx3, id, s.body.basicBlocks);
    ScopeAddsThen(NewBody(s), idx3.functionBodies[id], AddDefinition(idx, s).functionBodies[id],
                  [], ArgOccs(s.signature.args), BlocksLabelOccs(s.body.basicBlocks), BlocksLocalOccs(s.body.basicBlocks));
    assert [] + BlocksLabelOccs(s.body.basicBlocks) == LabelOccs(s);
  }

  /* ---------------- What pass 1 records in the global tables ---------------- */

  /** The occurrence a statement's own name makes in the global table of
      kind `k`: a global variable is a definition, a declared function a
      declaration, a defined function a definition and an annotation a
      definition. */
  function StatementOccs(s: Statement, k: SymbolKind): seq<Occurrence> {
    match s
    case GlobalVar(name, _) => if k.GlobalVar? then [Occurrence(name.value, name.span, Def)] else []
    case FuncDecl(sig, _) => if k.Function? then [Occurrence(sig.name.value, sig.name.span, Decl)] else []
    case FuncDef(_, sig, _) => if k.Function? then [Occurrence(sig.name.value, sig.name.span, Def)] else []
    case FuncDependencies => []
    case DbgAnnotation(name, _) => if k.DbgAnnotation? then [Occurrence(name.value, name.span, Def)] else []
  }

  /** The occurrences a run of statements makes in the global table of kind `k`. */
  function GlobalOccs(stmts: seq<Statement>, k: SymbolKind): seq<Occurrence>
    decreases |stmts|
  {
    if stmts == [] then [] else StatementOccs(stmts[0], k) + GlobalOccs(stmts[1..], k)
  }

  /** One statement records exactly its own name in the global table of its
      kind, and a definition creates a body with its scope. */
  lemma IndexStatementRecords(idx: HIRIndex, s: Statement)
    ensures forall k: SymbolKind :: k.IsGlobal() ==>
      GlobalTable(IndexStatement(idx, s), k) == AddAll(GlobalTable(idx, k), StatementOccs(s, k))
    ensures s.FuncDef? ==> ScopeOf(IndexStatement(idx, s).functionBodies[|idx.functionBodies|], s)
  {
    forall k: SymbolKind | k.IsGlobal()
      ensures GlobalTable(IndexStatement(idx, s), k) == AddAll(GlobalTable(idx, k), StatementOccs(s, k))
    {
      match s
      case GlobalVar(name, _) => AddAllOne(GlobalTable(idx, k), Occurrence(name.value, name.span, Def));
      case FuncDecl(sig, _) => AddAllOne(GlobalTable(idx, k), Occurrence(sig.name.value, sig.name.span, Decl));
      case FuncDef(_, sig, _) => AddAllOne(GlobalTable(idx, k), Occurrence(sig.name.value, sig.name.span, Def));
      case FuncDependencies =>
      case DbgAnnotation(name, _) => AddAllOne(GlobalTable(idx, k), Occurrence(name.value, name.span, Def));
    }
    if s.FuncDef? {
      FuncDefScope(idx, s);
    }
  }

  /** From position `base` on, the bodies carry the scopes of `defs`. */
  predicate ScopesFrom(bodies: seq<FunctionBody>, base: nat, defs: seq<Statement>) {
    && base + |defs| <= |bodies|
    && forall j :: 0 <= j < |defs| ==> defs[j].FuncDef? && ScopeOf(bodies[base + j], defs[j])
  }

  lemma ScopesCons(bodies: seq<FunctionBody>, base: nat, d: Statement, rest: seq<Statement>)
    requires d.FuncDef? && base < |bodies| && ScopeOf(bodies[base], d)
    requires ScopesFrom(bodies, base + 1, rest)
    ensures ScopesFrom(bodies, base, [d] + rest)
  {
    var defs := [d] + rest;
    forall j | 0 <= j < |defs|
      ensures defs[j].FuncDef? && ScopeOf(bodies[base + j], defs[j])
    {
      if j > 0 {
        assert defs[j] == rest[j - 1];
        assert base + j == (base + 1) + (j - 1);
      }
    }
  }

  /** Pass 1 records exactly the statements' own names in the global
      tables, in order. */
  lemma {:induction false} Pass1Globals(idx: HIRIndex, stmts: seq<Statement>)
    ensures forall k: SymbolKind :: k.IsGlobal() ==>
      GlobalTable(Pass1(idx, stmts), k) == AddAll(GlobalTable(idx, k), GlobalOccs(stmts, k))
    decreases |stmts|
  {
    if stmts != [] {
      var s := stmts[0];
      var idx1 := IndexStatement(idx, s);
      var r := Pass1(idx1, stmts[1..]);
      assert r == Pass1(idx, stmts);
      IndexStatementRecords(idx, s);
      Pass1Globals(idx1, stmts[1..]);
      forall k: SymbolKind | k.IsGlobal()
        ensures GlobalTable(r, k) == AddAll(GlobalTable(idx, k), GlobalOccs(stmts, k))
      {
        AddAllAppend(GlobalTable(idx, k), StatementOccs(s, k), GlobalOccs(stmts[1..], k));
      }
    }
  }

  /** After a definition, its body carries its scope, then come the bodies of
      the definitions after it. */
  lemma ScopesAfterDef(idx: HIRIndex, idx1: HIRIndex, r: HIRIndex, d: Statement, rest: seq<Statement>)
    requires d.FuncDef? && |idx1.functionBodies| == |idx.functionBodies| + 1
    requires ScopeOf(idx1.functionBodies[|idx.functionBodies|], d)
    requires |idx1.functionBodies| <= |r.functionBodies|
    requires forall j :: 0 <= j < |idx1.functionBodies| ==> r.functionBodies[j] == idx1.functionBodies[j]
    requires ScopesFrom(r.functionBodies, |idx1.functionBodies|, rest)
    ensures ScopesFrom(r.functionBodies, |idx.functionBodies|, [d] + rest)
  {
    assert r.functionBodies[|idx.functionBodies|] == idx1.functionBodies[|idx.functionBodies|];
    ScopesCons(r.functionBodies, |idx.functionBodies|, d, rest);
  }

  /** Pass 1 gives the body of each definition, in order, its scope. */
  lemma {:induction false} Pass1Scopes(idx: HIRIndex, stmts: seq<Statement>)
    ensures ScopesFrom(Pass1(idx, stmts).functionBodies, |idx.functionBodies|, FuncDefs(stmts))
    decreases |stmts|
  {
    if stmts != [] {
      var s := stmts[0];
      var idx1 := IndexStatement(idx, s);
      var r := Pass1(idx1, stmts[1..]);
      assert r == Pass1(idx, stmts);
      Pass1Scopes(idx1, stmts[1..]);
      if s.FuncDef? {
        FuncDefScope(idx, s);
        ScopesAfterDef(idx, idx1, r, s, FuncDefs(stmts[1..]));
        assert FuncDefs(stmts) == [s] + FuncDefs(stmts[1..]);
      } else {
        assert FuncDefs(stmts) == FuncDefs(stmts[1..]);
      }
    }
  }

  /* ---------------- What pass 2 records ---------------- */

  lemma {:induction false} FindBodySameRanges(a: seq<FunctionBody>, b: seq<FunctionBody>, pos: nat, i: nat)
    requires |a| == |b| && i <= |a|
    requires forall j :: 0 <= j < |a| ==> a[j].completeRange == b[j].completeRange
    ensures FindBody(a, pos, i) == FindBody(b, pos, i)
    decreases |a| - i
  {
    if i < |a| {
      FindBodySameRanges(a, b, pos, i + 1);
    }
  }

  /** The uses pass 2 attributes to each body depend on the bodies' ranges only. */
  lemma {:induction false} LocalUsesSameRanges(a: seq<FunctionBody>, b: seq<FunctionBody>, cursor: Option<nat>,
                                               tokens: seq<Spanned<Token>>, j: nat)
    requires |a| == |b| && (cursor.Some? ==> cursor.value < |a|)
    requires forall i :: 0 <= i < |a| ==> a[i].completeRange == b[i].completeRange
    ensures LocalUses(a, cursor, tokens, j) == LocalUses(b, cursor, tokens, j)
    decreases |tokens|
  {
    if tokens != [] {
      FindBodySameRanges(a, b, tokens[0].span.start, 0);
      var c := NextCursor(a, cursor, tokens[0]);
      assert c == NextCursor(b, cursor, tokens[0]);
      LocalUsesSameRanges(a, b, c, tokens[1..], j);
    }
  }

  /** One token records exactly its global occurrence, if any, in the
      table of its kind. */
  lemma IndexTokenGlobals(w: Walk, t: Spanned<Token>)
    requires w.CursorOk()
    ensures forall k: SymbolKind :: k.IsGlobal() ==>
      GlobalTable(IndexToken(w, t).index, k) == AddAll(GlobalTable(w.index, k), TokenOcc(t, k, w.index.functions.Keys))
  {
    match t.value
    case GlobalName(n) =>
      AddAllOne(if n in w.index.functions then w.index.functions else w.index.globalVars, Occurrence(n, t.span, Use));
    case DebugRef(n) =>
      AddAllOne(w.index.dbgAnnotations, Occurrence(n, t.span, Use));
    case LocalName(n) =>
    case _ =>
  }

  /** One token changes a body's scope only by recording its local-variable
      use there, if its cursor resolves to that body. */
  lemma IndexTokenLocals(w: Walk, t: Spanned<Token>)
    requires w.CursorOk()
    ensures var r := IndexToken(w, t);
      forall j :: 0 <= j < |w.index.functionBodies| ==>
        r.index.functionBodies[j] == w.index.functionBodies[j].(localVars :=
          AddAll(w.index.functionBodies[j].localVars, LocalUseOf(t, r.cursor, j)))
  {
    var r := IndexToken(w, t);
    if t.value.LocalName? && r.cursor.Some? {
      AddAllOne(w.index.functionBodies[r.cursor.value].localVars, Occurrence(t.value.name, t.span, Use));
    }
  }

  /** The kind-aware reading of one step of pass 2: the token's span is in
      the use list of its name in `after`, unless it was already recorded
      for that name in `before`, as a declaration, definition or use. */
  predicate UseRecorded(before: Table, after: Table, n: string, s: Span) {
    n in after && (s in after[n].uses || Recorded(before, n, s))
  }

  /** One token records a use of its name, in the function table exactly
      when the name is a function's, and touches nothing but that table;
      a local name touches only the body its cursor resolves to. */
  lemma IndexTokenRecords(w: Walk, t: Spanned<Token>)
    requires w.CursorOk()
    ensures var r := IndexToken(w, t);
      && (t.value.GlobalName? && t.value.name in w.index.functions ==>
            UseRecorded(w.index.functions, r.index.functions, t.value.name, t.span)
            && r.index.globalVars == w.index.globalVars && r.index.dbgAnnotations == w.index.dbgAnnotations)
      && (t.value.GlobalName? && t.value.name !in w.index.functions ==>
            UseRecorded(w.index.globalVars, r.index.globalVars, t.value.name, t.span)
            && r.index.functions == w.index.functions && r.index.dbgAnnotations == w.index.dbgAnnotations)
      && (t.value.DebugRef? ==>
            UseRecorded(w.index.dbgAnnotations, r.index.dbgAnnotations, t.value.name, t.span)
            && r.index.functions == w.index.functions && r.index.globalVars == w.index.globalVars)
      && (t.value.LocalName? && r.cursor.Some? ==>
            UseRecorded(w.index.functionBodies[r.cursor.value].localVars,
                        r.index.functionBodies[r.cursor.value].localVars, t.value.name, t.span))
      && (forall j :: 0 <= j < |w.index.functionBodies| && Some(j) != r.cursor ==>
            r.index.functionBodies[j] == w.index.functionBodies[j])
  {
    var r := IndexToken(w, t);
    IndexTokenGlobals(w, t);
    IndexTokenLocals(w, t);
    match t.value
    case GlobalName(n) =>
      var o := Occurrence(n, t.span, Use);
      if n in w.index.functions {
        AddAllOne(w.index.functions, o);
        assert GlobalTable(r.index, SymbolKind.Function) == Add(w.index.functions, o);
      } else {
        AddAllOne(w.index.globalVars, o);
        assert GlobalTable(r.index, SymbolKind.GlobalVar) == Add(w.index.globalVars, o);
      }
    case DebugRef(n) =>
      var o := Occurrence(n, t.span, Use);
      AddAllOne(w.index.dbgAnnotations, o);
      assert GlobalTable(r.index, SymbolKind.DbgAnnotation) == Add(w.index.dbgAnnotations, o);
    case LocalName(n) =>
      if r.cursor.Some? {
        AddAllOne(w.index.functionBodies[r.cursor.value].localVars, Occurrence(n, t.span, Use));
      }
    case _ =>
  }

  /** Pass 2 records exactly the tokens' occurrences: the global ones in
      order in the table of their kind, and each local name as a use in the
      body its cursor resolves to; nothing else changes in any body. */
  lemma {:induction false} Pass2Records(w: Walk, tokens: seq<Spanned<Token>>)
    requires w.CursorOk()
    ensures forall k: SymbolKind :: k.IsGlobal() ==>
      GlobalTable(Pass2(w, tokens).index, k) == AddAll(GlobalTable(w.index, k), TokenOccs(tokens, k, w.index.functions.Keys))
    ensures forall j :: 0 <= j < |w.index.functionBodies| ==>
      Pass2(w, tokens).index.functionBodies[j] == w.index.functionBodies[j].(localVars :=
        AddAll(w.index.functionBodies[j].localVars, LocalUses(w.index.functionBodies, w.cursor, tokens, j)))
    decreases |tokens|
  {
    var bodies := w.index.functionBodies;
    if tokens != [] {
      var t := tokens[0];
      var w1 := IndexToken(w, t);
      var r := Pass2(w1, tokens[1..]);
      assert r == Pass2(w, tokens);
      IndexTokenGlobals(w, t);
      IndexTokenLocals(w, t);
      Pass2Records(w1, tokens[1..]);
      forall k: SymbolKind | k.IsGlobal()
        ensures GlobalTable(r.index, k) == AddAll(GlobalTable(w.index, k), TokenOccs(tokens, k, w.index.functions.Keys))
      {
        AddAllAppend(GlobalTable(w.index, k), TokenOcc(t, k, w.index.functions.Keys), TokenOccs(tokens[1..], k, w.index.functions.Keys));
      }
      forall i | 0 <= i < |bodies|
        ensures bodies[i].completeRange == w1.index.functionBodies[i].completeRange
      {
        assert SkeletonOf(w1.index.functionBodies[i]) == SkeletonOf(bodies[i]);
      }
      LocalUsesSameRanges(bodies, w1.index.functionBodies, w1.cursor, tokens[1..], 0);
      forall j | 0 <= j < |bodies|
        ensures r.index.functionBodies[j] == bodies[j].(localVars :=
          AddAll(bodies[j].localVars, LocalUses(bodies, w.cursor, tokens, j)))
      {
        LocalUsesSameRanges(bodies, w1.index.functionBodies, w1.cursor, tokens[1..], j);
        AddAllAppend(bodies[j].localVars, LocalUseOf(t, w1.cursor, j), LocalUses(bodies, w1.cursor, tokens[1..], j));
      }
    }
  }

  /** Every local-variable use pass 2 attributes to body `j` comes from a
      local-name token of the stream whose start lies in that body's range. */
  lemma {:induction false} LocalUsesFromTokens(bodies: seq<FunctionBody>, cursor: Option<nat>,
                                               tokens: seq<Spanned<Token>>, j: nat)
    requires cursor.Some? ==> cursor.value < |bodies|
    ensures forall o :: o in LocalUses(bodies, cursor, tokens, j) ==>
      && o.ud == Use && j < |bodies| && bodies[j].completeRange.Contains(o.span.start)
      && exists i :: 0 <= i < |tokens| && tokens[i].value == LocalName(o.name) && tokens[i].span == o.span
    decreases |tokens|
  {
    if tokens != [] {
      var c := NextCursor(bodies, cursor, tokens[0]);
      LocalUsesFromTokens(bodies, c, tokens[1..], j);
      forall o | o in LocalUses(bodies, cursor, tokens, j)
        ensures exists i :: 0 <= i < |tokens| && tokens[i].value == LocalName(o.name) && tokens[i].span == o.span
      {
        if o !in LocalUseOf(tokens[0], c, j) {
          var i :| 0 <= i < |tokens[1..]| && tokens[1..][i].value == LocalName(o.name) && tokens[1..][i].span == o.span;
          assert tokens[i + 1] == tokens[1..][i];
        }
      }
    }
  }

  /** Every local-name token whose start lies in some body's range becomes a
      use in one such body. */
  lemma {:induction false} LocalUsesComplete(bodies: seq<FunctionBody>, cursor: Option<nat>,
                                             tokens: seq<Spanned<Token>>, i: nat)
    requires cursor.Some? ==> cursor.value < |bodies|
    requires i < |tokens| && tokens[i].value.LocalName?
    requires exists b :: 0 <= b < |bodies| && bodies[b].completeRange.Contains(tokens[i].span.start)
    ensures exists j :: (0 <= j < |bodies| && bodies[j].completeRange.Contains(tokens[i].span.start)
      && Occurrence(tokens[i].value.name, tokens[i].span, Use) in LocalUses(bodies, cursor, tokens, j))
    decreases i
  {
    var c := NextCursor(bodies, cursor, tokens[0]);
    if i == 0 {
      var j := c.value;
      assert LocalUseOf(tokens[0], c, j) == [Occurrence(tokens[0].value.name, tokens[0].span, Use)];
      assert LocalUses(bodies, cursor, tokens, j) == LocalUseOf(tokens[0], c, j) + LocalUses(bodies, c, tokens[1..], j);
    } else {
      assert tokens[1..][i - 1] == tokens[i];
      LocalUsesComplete(bodies, c, tokens[1..], i - 1);
      var j :| 0 <= j < |bodies| && bodies[j].completeRange.Contains(tokens[i].span.start)
        && Occurrence(tokens[i].value.name, tokens[i].span, Use) in LocalUses(bodies, c, tokens[1..], j);
      assert LocalUses(bodies, cursor, tokens, j) == LocalUseOf(tokens[0], c, j) + LocalUses(bodies, c, tokens[1..], j);
    }
  }

  /** When no two bodies contain `pos`, the cached cursor changes nothing:
      the body found is the first one whose range contains `pos`. */
  lemma ResolveCursorFirst(bodies: seq<FunctionBody>, cursor: Option<nat>, pos: nat)
    requires cursor.Some? ==> cursor.value < |bodies|
    requires forall a, b :: 0 <= a < b < |bodies| ==>
      !(bodies[a].completeRange.Contains(pos) && bodies[b].completeRange.Contains(pos))
    ensures ResolveCursor(bodies, cursor, pos) == FindBody(bodies, pos, 0)
  {
    var f := FindBody(bodies, pos, 0);
    if cursor.Some? && bodies[cursor.value].completeRange.Contains(pos) {
      assert f.Some?;
    }
  }

  /* ---------------- What `create_index` records ---------------- */

  /** The names pass 1 puts in the function table: every declared or
      defined function. */
  function FunctionNames(stmts: seq<Statement>): set<string> {
    set o | o in GlobalOccs(stmts, SymbolKind.Function) :: o.name
  }

  /** Each global table of the index is exactly the statements' own
      occurrences of its kind, then the tokens' uses of its kind, recorded
      into an empty table; a global name counts as a function use exactly
      when some statement declares or defines a function of that name. */
  lemma CreateIndexGlobals(tokens: seq<Spanned<Token>>, stmts: seq<Statement>)
    ensures forall k: SymbolKind :: k.IsGlobal() ==>
      GlobalTable(CreateIndex(tokens, stmts), k) ==
        AddAll(map[], GlobalOccs(stmts, k) + TokenOccs(tokens, k, FunctionNames(stmts)))
  {
    var idx := Pass1(EmptyIndex, stmts);
    Pass1Globals(EmptyIndex, stmts);
    Pass1Scopes(EmptyIndex, stmts);
    Pass2Records(Walk(idx, None), tokens);
    AddAllNames(map[], GlobalOccs(stmts, SymbolKind.Function));
    assert idx.functions.Keys == FunctionNames(stmts);
    forall k: SymbolKind | k.IsGlobal()
      ensures GlobalTable(CreateIndex(tokens, stmts), k) ==
        AddAll(map[], GlobalOccs(stmts, k) + TokenOccs(tokens, k, FunctionNames(stmts)))
    {
      AddAllAppend(map[], GlobalOccs(stmts, k), TokenOccs(tokens, k, FunctionNames(stmts)));
    }
  }

  /** The scope of body `j` is exactly that of the `j`-th definition: its
      labels as pass 1 records them, and its local variables as pass 1
      records them followed by the local names pass 2 resolves to `j`. */
  lemma CreateIndexScopes(tokens: seq<Spanned<Token>>, stmts: seq<Statement>)
    ensures var defs := FuncDefs(stmts);
      var bodies := Pass1(EmptyIndex, stmts).functionBodies;
      forall j :: 0 <= j < |defs| ==>
        && CreateIndex(tokens, stmts).functionBodies[j].labels == AddAll(map[], LabelOccs(defs[j]))
        && CreateIndex(tokens, stmts).functionBodies[j].localVars ==
             AddAll(map[], LocalOccs(defs[j]) + LocalUses(bodies, None, tokens, j))
  {
    var defs := FuncDefs(stmts);
    var idx := Pass1(EmptyIndex, stmts);
    Pass1Globals(EmptyIndex, stmts);
    Pass1Scopes(EmptyIndex, stmts);
    Pass2Records(Walk(idx, None), tokens);
    forall j | 0 <= j < |defs|
      ensures CreateIndex(tokens, stmts).functionBodies[j].localVars ==
        AddAll(map[], LocalOccs(defs[j]) + LocalUses(idx.functionBodies, None, tokens, j))
    {
      assert ScopeOf(idx.functionBodies[0 + j], defs[j]);
      AddAllAppend(map[], LocalOccs(defs[j]), LocalUses(idx.functionBodies, None, tokens, j));
    }
  }

  /** Nothing else is in a scope: a span listed for a local variable of
      body `j` is an argument or assignment target of the `j`-th definition,
      or a local name of the stream resolved to `j`, with that name and kind. */
  lemma CreateIndexLocalOrigin(tokens: seq<Spanned<Token>>, stmts: seq<Statement>, j: nat, n: string,
                               ud: UseDefKind, s: Span)
    requires j < |FuncDefs(stmts)|
    requires n in CreateIndex(tokens, stmts).functionBodies[j].localVars
    requires s in CreateIndex(tokens, stmts).functionBodies[j].localVars[n].Get(ud)
    ensures Occurrence(n, s, ud) in
      LocalOccs(FuncDefs(stmts)[j]) + LocalUses(Pass1(EmptyIndex, stmts).functionBodies, None, tokens, j)
  {
    var occs := LocalOccs(FuncDefs(stmts)[j]) + LocalUses(Pass1(EmptyIndex, stmts).functionBodies, None, tokens, j);
    var lv := CreateIndex(tokens, stmts).functionBodies[j].localVars;
    CreateIndexScopes(tokens, stmts);
    assert lv == AddAll(map[], occs);
    AddAllOnly(map[], occs, n, ud, s);
    var i :| 0 <= i < |occs| && occs[i] == Occurrence(n, s, ud);
    assert occs[i] in occs;
  }
}
