/**
 What a token stream shows at a position: for each piece of syntax, the
 tokens the grammar expects for it, one position after the other. Parsing a
 stream that shows a piece gives that piece back, and stops right after it.
 */
module Shapes {
  import opened Tokens
  import opened Syntax
  import opened Parser

  /** A name as a token of class `c`, at the name's own span. */
  function NameTok(n: Spanned<string>, c: NameClass): (r: Spanned<Token>)
    ensures NameOf(r.value, c) == Some(n.value) && r.span == n.span
  {
    var t := match c
      case GlobalClass => GlobalName(n.value)
      case LocalClass => LocalName(n.value)
      case DebugClass => DebugRef(n.value)
      case TypeClass => Type(n.value)
      case IdentClass => Ident(n.value)
      case ModifierClass => FuncModifier(n.value)
      case HexClass => HexNum(n.value);
    Spanned(t, n.span)
  }

  /** The token at `p` is the name `n` as a token of class `c`. */
  predicate NameIs(ts: TokenStream, p: nat, n: Spanned<string>, c: NameClass) {
    p < |ts| && ts[p] == NameTok(n, c)
  }

  lemma NameIsParsed(ts: TokenStream, p: nat, n: Spanned<string>, c: NameClass)
    requires NameIs(ts, p, n, c)
    ensures IsClass(ts, p, c) && NameAt(ts, p, c) == n
  {
  }

  /* ---------------- Signatures ---------------- */

  predicate ModifiersAt(ts: TokenStream, p: nat, mods: seq<Spanned<string>>)
    decreases |mods|
  {
    mods != [] ==> NameIs(ts, p, mods[0], ModifierClass) && ModifiersAt(ts, p + 1, mods[1..])
  }

  predicate ArgAt(ts: TokenStream, p: nat, a: FuncArg) {
    NameIs(ts, p, a.typeName, TypeClass) && NameIs(ts, p + 1, a.name, LocalClass)
  }

  /** `(',' Arg)*` */
  predicate MoreArgsAt(ts: TokenStream, p: nat, args: seq<FuncArg>)
    decreases |args|
  {
    args != [] ==> IsTok(ts, p, Punctuation(',')) && ArgAt(ts, p + 1, args[0]) && MoreArgsAt(ts, p + 3, args[1..])
  }

  function ArgsLen(args: seq<FuncArg>): nat {
    if args == [] then 0 else 3 * |args| - 1
  }

  predicate ArgsAt(ts: TokenStream, p: nat, args: seq<FuncArg>) {
    args != [] ==> ArgAt(ts, p, args[0]) && MoreArgsAt(ts, p + 2, args[1..])
  }

  function SignatureLen(sig: FuncSignature): nat {
    |sig.modifiers| + 4 + ArgsLen(sig.args)
  }

  /** `FuncModifier* Type GlobalName '(' args ')'` */
  predicate SignatureAt(ts: TokenStream, p: nat, sig: FuncSignature) {
    var m := p + |sig.modifiers|;
    && ModifiersAt(ts, p, sig.modifiers)
    && NameIs(ts, m, sig.retType, TypeClass)
    && NameIs(ts, m + 1, sig.name, GlobalClass)
    && IsTok(ts, m + 2, Punctuation('('))
    && ArgsAt(ts, m + 3, sig.args)
    && IsTok(ts, m + 3 + ArgsLen(sig.args), Punctuation(')'))
  }

  lemma {:induction false} ModifiersParse(ts: TokenStream, p: nat, mods: seq<Spanned<string>>)
    requires p <= |ts| && ModifiersAt(ts, p, mods) && !IsClass(ts, p + |mods|, ModifierClass)
    ensures ParseModifiers(ts, p) == Parsed(mods, p + |mods|)
    decreases |mods|
  {
    if mods != [] {
      NameIsParsed(ts, p, mods[0], ModifierClass);
      ModifiersParse(ts, p + 1, mods[1..]);
      assert [mods[0]] + mods[1..] == mods;
    }
  }

  lemma {:induction false} MoreArgsParse(ts: TokenStream, p: nat, args: seq<FuncArg>)
    requires p <= |ts| && MoreArgsAt(ts, p, args) && !IsTok(ts, p + 3 * |args|, Punctuation(','))
    ensures ParseMoreArgs(ts, p) == Parsed(args, p + 3 * |args|)
    decreases |args|
  {
    if args != [] {
      NameIsParsed(ts, p + 1, args[0].typeName, TypeClass);
      NameIsParsed(ts, p + 2, args[0].name, LocalClass);
      MoreArgsParse(ts, p + 3, args[1..]);
      assert [args[0]] + args[1..] == args;
    }
  }

  lemma ArgsParse(ts: TokenStream, p: nat, args: seq<FuncArg>)
    requires p <= |ts| && ArgsAt(ts, p, args) && IsTok(ts, p + ArgsLen(args), Punctuation(')'))
    ensures ParseArgs(ts, p) == Parsed(args, p + ArgsLen(args))
  {
    if args != [] {
      NameIsParsed(ts, p, args[0].typeName, TypeClass);
      NameIsParsed(ts, p + 1, args[0].name, LocalClass);
      MoreArgsParse(ts, p + 2, args[1..]);
      assert [args[0]] + args[1..] == args;
    } else {
      assert !IsClass(ts, p, TypeClass);
    }
  }

  lemma SignatureParse(ts: TokenStream, p: nat, sig: FuncSignature)
    requires p <= |ts| && SignatureAt(ts, p, sig)
    ensures ParseSignature(ts, p) == Some(Parsed(sig, p + SignatureLen(sig)))
  {
    var m := p + |sig.modifiers|;
    NameIsParsed(ts, m, sig.retType, TypeClass);
    NameIsParsed(ts, m + 1, sig.name, GlobalClass);
    ModifiersParse(ts, p, sig.modifiers);
    ArgsParse(ts, m + 3, sig.args);
  }

  /* ---------------- Function bodies ---------------- */

  function InstructionLen(i: Instruction): nat {
    if i.assignmentTarget.Some? then 5 else 2
  }

  /** `(Type LocalName '=')? Ident Newline`, with no extracted label reference. */
  predicate InstructionAt(ts: TokenStream, p: nat, i: Instruction) {
    && i.basicBlockRefs == []
    && if i.assignmentTarget.Some? then
         && p < |ts| && ts[p].value.Type?
         && NameIs(ts, p + 1, i.assignmentTarget.value, LocalClass)
         && IsTok(ts, p + 2, Punctuation('='))
         && NameIs(ts, p + 3, i.mnemonic, IdentClass)
         && IsTok(ts, p + 4, Newline)
       else
         NameIs(ts, p, i.mnemonic, IdentClass) && IsTok(ts, p + 1, Newline)
  }

  function InstructionsLen(instrs: seq<Instruction>): nat {
    if instrs == [] then 0 else InstructionLen(instrs[0]) + InstructionsLen(instrs[1..])
  }

  predicate InstructionsAt(ts: TokenStream, p: nat, instrs: seq<Instruction>)
    decreases |instrs|
  {
    instrs != [] ==> InstructionAt(ts, p, instrs[0]) && InstructionsAt(ts, p + InstructionLen(instrs[0]), instrs[1..])
  }

  /** The token at `q` is the closing bracket or starts a block label `name:`. */
  predicate EndsInstructions(ts: TokenStream, q: nat) {
    && q < |ts|
    && (ts[q].value == Punctuation('}') || (ts[q].value.Ident? && q + 1 < |ts| && ts[q + 1].value == Punctuation(':')))
  }

  lemma InstructionParse(ts: TokenStream, p: nat, i: Instruction)
    requires p <= |ts| && InstructionAt(ts, p, i)
    ensures ParseInstruction(ts, p) == Some(Parsed(i, p + InstructionLen(i) - 1))
  {
    if i.assignmentTarget.Some? {
      NameIsParsed(ts, p + 1, i.assignmentTarget.value, LocalClass);
      NameIsParsed(ts, p + 3, i.mnemonic, IdentClass);
      assert MnemonicPos(ts, p) == p + 3;
    } else {
      NameIsParsed(ts, p, i.mnemonic, IdentClass);
      assert MnemonicPos(ts, p) == p;
    }
  }

  /** A block label or the closing bracket ends an instruction list. */
  lemma StopsAtBlockOrClose(ts: TokenStream, q: nat)
    requires EndsInstructions(ts, q)
    ensures ts[q].value != Newline && SkipNewlines(ts, q) == q && ParseInstruction(ts, q).None?
  {
    if ts[q].value == Punctuation('}') {
      assert MnemonicPos(ts, q) == q;
    } else {
      assert IsClass(ts, q, IdentClass) && IsTok(ts, q + 1, Punctuation(':'));
    }
  }

  /** An instruction list that is followed by what ends it starts with a non-newline. */
  lemma InstructionsStart(ts: TokenStream, p: nat, instrs: seq<Instruction>)
    requires InstructionsAt(ts, p, instrs) && EndsInstructions(ts, p + InstructionsLen(instrs))
    ensures p < |ts| && ts[p].value != Newline
  {
  }

  /** One step of the instruction list: a rendered instruction, then the
      list after it, which starts on the next line. */
  lemma InstructionsStep(ts: TokenStream, p: nat, instrs: seq<Instruction>, e: nat)
    requires instrs != [] && InstructionAt(ts, p, instrs[0])
    requires var q := p + InstructionLen(instrs[0]); q < |ts| && ts[q].value != Newline && ParseInstructions(ts, q) == Parsed(instrs[1..], e)
    ensures ParseInstructions(ts, p) == Parsed(instrs, e)
  {
    var q := p + InstructionLen(instrs[0]);
    InstructionParse(ts, p, instrs[0]);
    assert SkipNewlines(ts, p) == p;
    assert SkipNewlines(ts, q - 1) == q;
    assert [instrs[0]] + instrs[1..] == instrs;
  }

  lemma {:induction false} InstructionsParse(ts: TokenStream, p: nat, instrs: seq<Instruction>)
    requires InstructionsAt(ts, p, instrs) && EndsInstructions(ts, p + InstructionsLen(instrs))
    ensures ParseInstructions(ts, p) == Parsed(instrs, p + InstructionsLen(instrs))
    decreases |instrs|
  {
    if instrs == [] {
      StopsAtBlockOrClose(ts, p);
    } else {
      var q := p + InstructionLen(instrs[0]);
      InstructionsStart(ts, q, instrs[1..]);
      InstructionsParse(ts, q, instrs[1..]);
      InstructionsStep(ts, p, instrs, p + InstructionsLen(instrs));
    }
  }

  /** A block's length: its label line, when it has one, and its instructions. */
  function BlockLen(b: BasicBlock): nat {
    (if b.blockLabel.Some? then 3 else 0) + InstructionsLen(b.instructions)
  }

  function BlocksLen(blocks: seq<BasicBlock>): nat {
    if blocks == [] then 0 else BlockLen(blocks[0]) + BlocksLen(blocks[1..])
  }

  /** `Ident ':' Newline instructions` */
  predicate BlockAt(ts: TokenStream, p: nat, b: BasicBlock) {
    && b.blockLabel.Some?
    && NameIs(ts, p, b.blockLabel.value, IdentClass)
    && IsTok(ts, p + 1, Punctuation(':'))
    && IsTok(ts, p + 2, Newline)
    && InstructionsAt(ts, p + 3, b.instructions)
  }

  predicate BlocksAt(ts: TokenStream, p: nat, blocks: seq<BasicBlock>)
    decreases |blocks|
  {
    blocks != [] ==> BlockAt(ts, p, blocks[0]) && BlocksAt(ts, p + BlockLen(blocks[0]), blocks[1..])
  }

  lemma BlockParse(ts: TokenStream, p: nat, b: BasicBlock)
    requires BlockAt(ts, p, b) && EndsInstructions(ts, p + BlockLen(b))
    ensures ParseBlock(ts, p) == Some(Parsed(b, p + BlockLen(b)))
  {
    NameIsParsed(ts, p, b.blockLabel.value, IdentClass);
    InstructionsStart(ts, p + 3, b.instructions);
    assert SkipNewlines(ts, p + 2) == p + 3;
    InstructionsParse(ts, p + 3, b.instructions);
  }

  /** What follows an instruction list in a body, the next block or the
      closing bracket, ends that list. */
  lemma NextStops(ts: TokenStream, q: nat, blocks: seq<BasicBlock>)
    requires BlocksAt(ts, q, blocks) && IsTok(ts, q + BlocksLen(blocks), Punctuation('}'))
    ensures EndsInstructions(ts, q)
  {
  }

  /** The blocks after the first, and what follows them. */
  lemma BlocksTail(ts: TokenStream, p: nat, blocks: seq<BasicBlock>)
    requires blocks != [] && BlocksAt(ts, p, blocks) && IsTok(ts, p + BlocksLen(blocks), Punctuation('}'))
    ensures BlockAt(ts, p, blocks[0]) && EndsInstructions(ts, p + BlockLen(blocks[0]))
    ensures BlocksAt(ts, p + BlockLen(blocks[0]), blocks[1..])
    ensures IsTok(ts, p + BlockLen(blocks[0]) + BlocksLen(blocks[1..]), Punctuation('}'))
    ensures BlocksLen(blocks) == BlockLen(blocks[0]) + BlocksLen(blocks[1..])
  {
    NextStops(ts, p + BlockLen(blocks[0]), blocks[1..]);
  }

  /** One step of the block list: the first block, then the rest. */
  lemma BlocksStep(ts: TokenStream, p: nat, blocks: seq<BasicBlock>, q: nat, e: nat)
    requires blocks != [] && p <= q <= |ts|
    requires ParseBlock(ts, p) == Some(Parsed(blocks[0], q))
    requires ParseBlocks(ts, q) == Parsed(blocks[1..], e)
    ensures ParseBlocks(ts, p) == Parsed(blocks, e)
  {
    assert [blocks[0]] + blocks[1..] == blocks;
  }

  lemma {:induction false} BlocksParse(ts: TokenStream, p: nat, blocks: seq<BasicBlock>)
    requires BlocksAt(ts, p, blocks) && IsTok(ts, p + BlocksLen(blocks), Punctuation('}'))
    ensures ParseBlocks(ts, p) == Parsed(blocks, p + BlocksLen(blocks))
    decreases |blocks|
  {
    if blocks == [] {
      assert !IsClass(ts, p, IdentClass);
    } else {
      BlocksTail(ts, p, blocks);
      BlockParse(ts, p, blocks[0]);
      BlocksParse(ts, p + BlockLen(blocks[0]), blocks[1..]);
      BlocksStep(ts, p, blocks, p + BlockLen(blocks[0]), p + BlocksLen(blocks));
    }
  }

  function BodyLen(body: FuncBody): nat {
    3 + BlocksLen(body.basicBlocks)
  }

  /** `'{' Newline instructions Block* '}'`: the unlabelled entry block's
      instructions, then the labelled blocks. */
  predicate BodyAt(ts: TokenStream, p: nat, body: FuncBody) {
    var bbs := body.basicBlocks;
    && |bbs| >= 1 && bbs[0].blockLabel.None?
    && IsTok(ts, p, Punctuation('{')) && ts[p].span == body.openingBracket
    && IsTok(ts, p + 1, Newline)
    && InstructionsAt(ts, p + 2, bbs[0].instructions)
    && BlocksAt(ts, p + 2 + InstructionsLen(bbs[0].instructions), bbs[1..])
    && IsTok(ts, p + 2 + BlocksLen(bbs), Punctuation('}'))
    && ts[p + 2 + BlocksLen(bbs)].span == body.closingBracket
  }

  /** The body parser, given what its parts parse to. */
  lemma BodyStep(ts: TokenStream, p: nat, body: FuncBody, q: nat, c: nat)
    requires |body.basicBlocks| >= 1 && body.basicBlocks[0].blockLabel.None?
    requires IsTok(ts, p, Punctuation('{')) && ts[p].span == body.openingBracket
    requires IsTok(ts, p + 1, Newline) && p + 2 < |ts| && ts[p + 2].value != Newline
    requires ParseInstructions(ts, p + 2) == Parsed(body.basicBlocks[0].instructions, q)
    requires q <= |ts| && ParseBlocks(ts, q) == Parsed(body.basicBlocks[1..], c)
    requires IsTok(ts, c, Punctuation('}')) && ts[c].span == body.closingBracket
    ensures ParseBody(ts, p) == Some(Parsed(body, c + 1))
  {
    var bbs := body.basicBlocks;
    assert SkipNewlines(ts, p + 1) == p + 2;
    assert [BasicBlock(None, bbs[0].instructions)] + bbs[1..] == bbs;
    assert FuncBody(ts[p].span, ts[c].span, bbs) == body;
  }

  /** Where the parts of a body are. */
  lemma BodyParts(ts: TokenStream, p: nat, body: FuncBody)
    requires BodyAt(ts, p, body)
    ensures var bbs := body.basicBlocks;
      var q := p + 2 + InstructionsLen(bbs[0].instructions);
      && p + 2 < |ts| && ts[p + 2].value != Newline
      && InstructionsAt(ts, p + 2, bbs[0].instructions) && EndsInstructions(ts, q)
      && BlocksAt(ts, q, bbs[1..])
      && p + 2 + BlocksLen(bbs) == q + BlocksLen(bbs[1..])
      && IsTok(ts, q + BlocksLen(bbs[1..]), Punctuation('}'))
  {
    var bbs := body.basicBlocks;
    var q := p + 2 + InstructionsLen(bbs[0].instructions);
    assert p + 2 + BlocksLen(bbs) == q + BlocksLen(bbs[1..]);
    NextStops(ts, q, bbs[1..]);
    InstructionsStart(ts, p + 2, bbs[0].instructions);
  }

  /** The body parser over parts already located by `BodyParts`. */
  lemma BodyFromParts(ts: TokenStream, p: nat, body: FuncBody, q: nat)
    requires |body.basicBlocks| >= 1 && body.basicBlocks[0].blockLabel.None?
    requires IsTok(ts, p, Punctuation('{')) && ts[p].span == body.openingBracket
    requires IsTok(ts, p + 1, Newline) && p + 2 < |ts| && ts[p + 2].value != Newline
    requires q == p + 2 + InstructionsLen(body.basicBlocks[0].instructions)
    requires InstructionsAt(ts, p + 2, body.basicBlocks[0].instructions) && EndsInstructions(ts, q)
    requires BlocksAt(ts, q, body.basicBlocks[1..])
    requires IsTok(ts, q + BlocksLen(body.basicBlocks[1..]), Punctuation('}'))
    requires ts[q + BlocksLen(body.basicBlocks[1..])].span == body.closingBracket
    ensures ParseBody(ts, p) == Some(Parsed(body, q + BlocksLen(body.basicBlocks[1..]) + 1))
  {
    var bbs := body.basicBlocks;
    InstructionsParse(ts, p + 2, bbs[0].instructions);
    BlocksParse(ts, q, bbs[1..]);
    BodyStep(ts, p, body, q, q + BlocksLen(bbs[1..]));
  }

  lemma BodyParse(ts: TokenStream, p: nat, body: FuncBody)
    requires BodyAt(ts, p, body)
    ensures ParseBody(ts, p) == Some(Parsed(body, p + BodyLen(body)))
  {
    BodyParts(ts, p, body);
    BodyFromParts(ts, p, body, p + 2 + InstructionsLen(body.basicBlocks[0].instructions));
  }

  /* ---------------- Statements ---------------- */

  /** `def` is a run of non-newline tokens at `p`. */
  predicate SoupAt(ts: TokenStream, p: nat, def: seq<Spanned<Token>>) {
    && p + |def| <= |ts| && ts[p .. p + |def|] == def
    && forall i :: 0 <= i < |def| ==> def[i].value != Newline
  }

  /** A soup followed by a newline is exactly what the soup parser takes. */
  lemma SoupParse(ts: TokenStream, p: nat, def: seq<Spanned<Token>>)
    requires SoupAt(ts, p, def) && IsTok(ts, p + |def|, Newline)
    ensures SoupEnd(ts, p) == p + |def|
  {
    SoupEndLine(ts, p);
    forall i | p <= i < p + |def| ensures ts[i].value != Newline {
      assert ts[i] == def[i - p];
    }
  }

  /** `'=' HexNum` when there is an address. */
  predicate AddrAt(ts: TokenStream, p: nat, addr: Option<Spanned<string>>) {
    addr.Some? ==> IsTok(ts, p, Punctuation('=')) && NameIs(ts, p + 1, addr.value, HexClass)
  }

  function AddrLen(addr: Option<Spanned<string>>): nat {
    if addr.Some? then 2 else 0
  }

  /** The number of tokens of a statement's line, its newline included. */
  function StatementLen(s: Statement): nat {
    match s
    case GlobalVar(_, def) => 3 + |def|
    case FuncDecl(sig, addr) => 2 + SignatureLen(sig) + AddrLen(addr)
    case FuncDef(_, sig, body) => 2 + SignatureLen(sig) + BodyLen(body)
    case FuncDependencies => 0
    case DbgAnnotation(_, def) => 2 + |def|
  }

  /** A statement's line: its tokens, then a newline. Nothing shows the
      dependency statement, which the grammar has no rule for. */
  predicate StatementAt(ts: TokenStream, p: nat, s: Statement) {
    && !s.FuncDependencies?
    && IsTok(ts, p + StatementLen(s) - 1, Newline)
    && match s
       case GlobalVar(name, def) =>
         NameIs(ts, p, name, GlobalClass) && IsTok(ts, p + 1, Punctuation('=')) && SoupAt(ts, p + 2, def)
       case FuncDecl(sig, addr) =>
         IsTok(ts, p, Declare) && SignatureAt(ts, p + 1, sig) && AddrAt(ts, p + 1 + SignatureLen(sig), addr)
       case FuncDef(kw, sig, body) =>
         && IsTok(ts, p, Define) && ts[p].span == kw
         && SignatureAt(ts, p + 1, sig) && BodyAt(ts, p + 1 + SignatureLen(sig), body)
       case FuncDependencies => false
       case DbgAnnotation(name, def) =>
         NameIs(ts, p, name, DebugClass) && SoupAt(ts, p + 1, def)
  }

  lemma GlobalVarParse(ts: TokenStream, p: nat, s: Statement)
    requires s.GlobalVar? && StatementAt(ts, p, s)
    ensures ParseStatement(ts, p) == Some(Parsed(s, p + StatementLen(s)))
  {
    NameIsParsed(ts, p, s.name, GlobalClass);
    SoupParse(ts, p + 2, s.def);
  }

  lemma DbgAnnotationParse(ts: TokenStream, p: nat, s: Statement)
    requires s.DbgAnnotation? && StatementAt(ts, p, s)
    ensures ParseStatement(ts, p) == Some(Parsed(s, p + StatementLen(s)))
  {
    NameIsParsed(ts, p, s.name, DebugClass);
    SoupParse(ts, p + 1, s.def);
  }

  /** A line starting with `declare` can only be a declaration. */
  lemma DeclAlternative(ts: TokenStream, p: nat)
    requires p <= |ts| && IsTok(ts, p, Declare)
    ensures ParseStatement(ts, p) == ParseDecl(ts, p)
  {
  }

  /** The declaration parser, given what its signature and address parse to. */
  lemma DeclStep(ts: TokenStream, p: nat, s: Statement, a: nat, e: nat)
    requires s.FuncDecl? && IsTok(ts, p, Declare)
    requires p < a <= |ts| && ParseSignature(ts, p + 1) == Some(Parsed(s.signature, a))
    requires ParseAddr(ts, a) == Parsed(s.addr, e) && IsTok(ts, e, Newline)
    ensures ParseDecl(ts, p) == Some(Parsed(s, e + 1))
  {
  }

  /** The optional address after a signature parses back to itself. */
  lemma AddrParse(ts: TokenStream, a: nat, addr: Option<Spanned<string>>)
    requires a <= |ts| && AddrAt(ts, a, addr) && IsTok(ts, a + AddrLen(addr), Newline)
    ensures ParseAddr(ts, a) == Parsed(addr, a + AddrLen(addr))
  {
    if addr.Some? {
      NameIsParsed(ts, a + 1, addr.value, HexClass);
    }
  }

  lemma DeclParse(ts: TokenStream, p: nat, s: Statement)
    requires s.FuncDecl? && StatementAt(ts, p, s)
    ensures ParseStatement(ts, p) == Some(Parsed(s, p + StatementLen(s)))
  {
    var a := p + 1 + SignatureLen(s.signature);
    SignatureParse(ts, p + 1, s.signature);
    AddrParse(ts, a, s.addr);
    DeclStep(ts, p, s, a, a + AddrLen(s.addr));
    DeclAlternative(ts, p);
  }

  /** The definition parser, given what its signature and body parse to. */
  lemma DefStep(ts: TokenStream, p: nat, s: Statement, b: nat, e: nat)
    requires s.FuncDef? && IsTok(ts, p, Define) && ts[p].span == s.defineKw
    requires p < b <= |ts| && ParseSignature(ts, p + 1) == Some(Parsed(s.signature, b))
    requires ParseBody(ts, b) == Some(Parsed(s.body, e)) && IsTok(ts, e, Newline)
    ensures ParseDef(ts, p) == Some(Parsed(s, e + 1))
  {
  }

  /** A line starting with `define` can only be a definition. */
  lemma DefAlternative(ts: TokenStream, p: nat)
    requires p <= |ts| && IsTok(ts, p, Define)
    ensures ParseStatement(ts, p) == ParseDef(ts, p)
  {
  }

  /** A definition parses back from its keyword, its parsed signature and
      the body after it. */
  lemma DefPartsParse(ts: TokenStream, p: nat, s: Statement, b: nat)
    requires s.FuncDef? && IsTok(ts, p, Define) && ts[p].span == s.defineKw
    requires p < b <= |ts| && ParseSignature(ts, p + 1) == Some(Parsed(s.signature, b))
    requires BodyAt(ts, b, s.body) && IsTok(ts, b + BodyLen(s.body), Newline)
    ensures ParseDef(ts, p) == Some(Parsed(s, b + BodyLen(s.body) + 1))
  {
    BodyParse(ts, b, s.body);
    DefStep(ts, p, s, b, b + BodyLen(s.body));
  }

  lemma DefParse(ts: TokenStream, p: nat, s: Statement)
    requires s.FuncDef? && StatementAt(ts, p, s)
    ensures ParseStatement(ts, p) == Some(Parsed(s, p + StatementLen(s)))
  {
    var b := p + 1 + SignatureLen(s.signature);
    assert SignatureAt(ts, p + 1, s.signature) && BodyAt(ts, b, s.body);
    DefLineParse(ts, p, s, b);
  }

  /** A signature's tokens parse back to it, ending at `b`. */
  lemma SignatureEnds(ts: TokenStream, q: nat, sig: FuncSignature, b: nat)
    requires q <= |ts| && SignatureAt(ts, q, sig) && b == q + SignatureLen(sig)
    ensures q < b <= |ts| && ParseSignature(ts, q) == Some(Parsed(sig, b))
  {
    SignatureParse(ts, q, sig);
  }

  /** The line of a definition, its parts located, parses back to it. */
  lemma DefLineParse(ts: TokenStream, p: nat, s: Statement, b: nat)
    requires s.FuncDef? && IsTok(ts, p, Define) && ts[p].span == s.defineKw
    requires b == p + 1 + SignatureLen(s.signature) && SignatureAt(ts, p + 1, s.signature)
    requires BodyAt(ts, b, s.body) && IsTok(ts, b + BodyLen(s.body), Newline)
    ensures ParseStatement(ts, p) == Some(Parsed(s, b + BodyLen(s.body) + 1))
  {
    SignatureEnds(ts, p + 1, s.signature, b);
    DefPartsParse(ts, p, s, b);
    DefAlternative(ts, p);
  }

  /** Every statement form the grammar has parses back from its line. */
  lemma StatementParse(ts: TokenStream, p: nat, s: Statement)
    requires StatementAt(ts, p, s)
    ensures ParseStatement(ts, p) == Some(Parsed(s, p + StatementLen(s)))
  {
    match s
    case GlobalVar(_, _) => GlobalVarParse(ts, p, s);
    case FuncDecl(_, _) => DeclParse(ts, p, s);
    case FuncDef(_, _, _) => DefParse(ts, p, s);
    case DbgAnnotation(_, _) => DbgAnnotationParse(ts, p, s);
  }

  /* ---------------- Documents ---------------- */

  /** The lines of `stmts`, one after the other, from `p` up to `e`. */
  predicate LinesAt(ts: TokenStream, p: nat, stmts: seq<Statement>, e: nat)
    decreases |stmts|
  {
    if stmts == [] then p == e
    else StatementAt(ts, p, stmts[0]) && LinesAt(ts, p + StatementLen(stmts[0]), stmts[1..], e)
  }

  /** The lines of `stmts` up to the end of the input. */
  predicate ProgramAt(ts: TokenStream, p: nat, stmts: seq<Statement>) {
    LinesAt(ts, p, stmts, |ts|)
  }

  /** A statement's line starts with the token that announces it. */
  lemma StatementStart(ts: TokenStream, p: nat, s: Statement)
    requires StatementAt(ts, p, s)
    ensures p < |ts| && ts[p].value != Newline && StatementLen(s) >= 2
  {
    if s.FuncDef? || s.FuncDecl? {
      assert SignatureLen(s.signature) >= 4;
    }
  }

  /** The statement list parser, given its first padded statement and what
      the rest yields: the statement goes in front, the errors and whether
      the end was reached are those of the rest. */
  lemma ParseFromStep(ts: TokenStream, p: nat, s: Statement, q: nat, rest: seq<Statement>, errs: seq<ParseError>, complete: bool)
    requires p < |ts| && ParsePadded(ts, p) == Some(Parsed(s, q))
    requires ParseFrom(ts, q) == ParseOutput(rest, errs, complete)
    ensures ParseFrom(ts, p) == ParseOutput([s] + rest, errs, complete)
  {
  }

  /** A run of statement lines ending where no blank line follows starts at
      that end or at a token that is no newline, so the newline padding
      skips nothing there. */
  lemma {:induction false} LinesStart(ts: TokenStream, p: nat, stmts: seq<Statement>, e: nat)
    requires LinesAt(ts, p, stmts, e) && e <= |ts| && (e == |ts| || ts[e].value != Newline)
    ensures p <= e && (p == |ts| || ts[p].value != Newline)
    decreases |stmts|
  {
    if stmts != [] {
      var q := p + StatementLen(stmts[0]);
      assert LinesAt(ts, q, stmts[1..], e);
      LinesStart(ts, q, stmts[1..], e);
      StatementStart(ts, p, stmts[0]);
    }
  }

  /** A statement line not followed by blank lines is one padded statement. */
  lemma PaddedParse(ts: TokenStream, p: nat, s: Statement, q: nat)
    requires StatementAt(ts, p, s) && q == p + StatementLen(s)
    requires q <= |ts| && (q == |ts| || ts[q].value != Newline)
    ensures p < |ts| && ParsePadded(ts, p) == Some(Parsed(s, q))
  {
    StatementStart(ts, p, s);
    StatementParse(ts, p, s);
  }

  /** Well-formed lines in front of anything: the statement list parser
      returns those statements, followed by whatever it returns from the
      end of the lines on, with the same errors and the same outcome. */
  lemma {:induction false} LinesParse(ts: TokenStream, p: nat, stmts: seq<Statement>, e: nat,
                                      rest: seq<Statement>, errs: seq<ParseError>, complete: bool)
    requires LinesAt(ts, p, stmts, e) && e <= |ts| && (e == |ts| || ts[e].value != Newline)
    requires ParseFrom(ts, e) == ParseOutput(rest, errs, complete)
    ensures p <= e && ParseFrom(ts, p) == ParseOutput(stmts + rest, errs, complete)
    decreases |stmts|
  {
    LinesStart(ts, p, stmts, e);
    if stmts == [] {
      assert stmts + rest == rest;
    } else {
      var q := p + StatementLen(stmts[0]);
      LinesStart(ts, q, stmts[1..], e);
      PaddedParse(ts, p, stmts[0], q);
      LinesParse(ts, q, stmts[1..], e, rest, errs, complete);
      ParseFromStep(ts, p, stmts[0], q, stmts[1..] + rest, errs, complete);
      ConsAppend(stmts, rest);
    }
  }

  lemma ConsAppend<T>(s: seq<T>, t: seq<T>)
    requires s != []
    ensures [s[0]] + (s[1..] + t) == s + t
  {
    assert s == [s[0]] + s[1..];
  }

  /** Statement lines up to the end of the input parse to exactly those
      statements, with no error, and the end is reached. */
  lemma ProgramParse(ts: TokenStream, p: nat, stmts: seq<Statement>)
    requires p <= |ts| && ProgramAt(ts, p, stmts)
    ensures ParseFrom(ts, p) == ParseOutput(stmts, [], true)
  {
    LinesParse(ts, p, stmts, |ts|, [], [], true);
    assert stmts + [] == stmts;
  }

  /** Dropping comments from a stream without any changes nothing. */
  lemma {:induction false} FilterCommentsNone(ts: TokenStream)
    requires forall i :: 0 <= i < |ts| ==> ts[i].value != Comment
    ensures FilterComments(ts) == ts
  {
    if ts != [] {
      FilterCommentsNone(ts[1..]);
      assert [ts[0]] + ts[1..] == ts;
    }
  }

  /** A comment-free document made of statement lines parses to exactly
      those statements, with no error. */
  lemma DocumentParse(tokens: TokenStream, stmts: seq<Statement>)
    requires forall i :: 0 <= i < |tokens| ==> tokens[i].value != Comment
    requires ProgramAt(tokens, 0, stmts)
    ensures ParseTokens(tokens) == ParserResult(tokens, stmts, [])
  {
    FilterCommentsNone(tokens);
    ProgramParse(tokens, 0, stmts);
  }

  /* ---------------- Recovery ---------------- */

  /** A token no statement can start with: not a global name, not `declare`
      or `define`, not a debug reference, and not a newline either. */
  predicate StartsNothing(t: Token) {
    !t.GlobalName? && t != Declare && t != Define && !t.DebugRef? && t != Newline
  }

  /** A bad line at `q`: `k >= 1` tokens none of which can start a
      statement, then a newline. */
  predicate BadLineAt(ts: TokenStream, q: nat, k: nat) {
    && 1 <= k && q + k < |ts| && ts[q + k].value == Newline
    && forall i :: q <= i < q + k ==> StartsNothing(ts[i].value)
  }

  /** No padded statement parses at a token that starts nothing. */
  lemma StartsNothingFails(ts: TokenStream, i: nat)
    requires i < |ts| && StartsNothing(ts[i].value)
    ensures ParsePadded(ts, i).None?
  {
    assert SkipNewlines(ts, i) == i;
  }

  /** The only position after `q` where a statement parses is `j`, so that
      is where recovery resumes: any other answer would contradict what
      `Recover` promises about the positions before it. */
  lemma RecoverAt(ts: TokenStream, q: nat, j: nat)
    requires q <= j < |ts| && ParsePadded(ts, j).Some?
    requires forall i :: q <= i < j ==> ParsePadded(ts, i).None?
    ensures Recover(ts, q) == Some(j)
  {
  }

  /** The statement list parser where no statement parses and recovery
      resumes at `q`: one error, then the statement found there and what
      follows it. */
  lemma ParseFromResume(ts: TokenStream, p: nat, q: nat, s: Statement, n: nat,
                        rest: seq<Statement>, errs: seq<ParseError>, complete: bool)
    requires p < |ts| && ParsePadded(ts, p).None? && Recover(ts, p + 1) == Some(q)
    requires ParsePadded(ts, q) == Some(Parsed(s, n))
    requires ParseFrom(ts, n) == ParseOutput(rest, errs, complete)
    ensures ParseFrom(ts, p) == ParseOutput([s] + rest, [SyntaxError(p)] + errs, complete)
  {
  }

  /** The statement list parser where no statement parses and recovery
      finds nothing: one error, no statement, and the end is not reached. */
  lemma ParseFromGiveUp(ts: TokenStream, p: nat)
    requires p < |ts| && ParsePadded(ts, p).None? && Recover(ts, p + 1).None?
    ensures ParseFrom(ts, p) == ParseOutput([], [SyntaxError(p)], false)
  {
  }

  /** The padding skips a newline at `j`: a padded statement parses the
      same from `j` as from the next token. */
  lemma PaddedAfterNewline(ts: TokenStream, j: nat)
    requires j < |ts| && ts[j].value == Newline
    ensures ParsePadded(ts, j) == ParsePadded(ts, j + 1)
  {
    assert SkipNewlines(ts, j) == SkipNewlines(ts, j + 1);
  }

  /** No padded statement parses anywhere on a bad line. */
  lemma BadLineFails(ts: TokenStream, q: nat, k: nat)
    requires BadLineAt(ts, q, k)
    ensures forall i :: q <= i < q + k ==> ParsePadded(ts, i).None?
  {
    forall i | q <= i < q + k ensures ParsePadded(ts, i).None? {
      StartsNothingFails(ts, i);
    }
  }

  /** A bad last line: one error at its first token, no statement, and the
      end of the input is not reached, since recovery finds nothing after it. */
  lemma BadLastLine(ts: TokenStream, q: nat, k: nat)
    requires BadLineAt(ts, q, k) && q + k + 1 == |ts|
    ensures ParseFrom(ts, q) == ParseOutput([], [SyntaxError(q)], false)
  {
    BadLineFails(ts, q, k);
    PaddedAfterNewline(ts, q + k);
    assert Recover(ts, q + 1).None?;
    ParseFromGiveUp(ts, q);
  }

  /** Nothing parses at a bad line's first token; when a statement parses
      after its newline, recovery resumes at that newline. */
  lemma BadLineRecovers(ts: TokenStream, q: nat, k: nat)
    requires BadLineAt(ts, q, k) && ParsePadded(ts, q + k + 1).Some?
    ensures ParsePadded(ts, q).None?
    ensures Recover(ts, q + 1) == Some(q + k)
    ensures ParsePadded(ts, q + k) == ParsePadded(ts, q + k + 1)
  {
    BadLineFails(ts, q, k);
    PaddedAfterNewline(ts, q + k);
    RecoverAt(ts, q + 1, q + k);
  }

  /** A bad line followed by a statement `s`: one error at the bad line's
      first token, then `s` and what follows it. Recovery resumes at the
      bad line's newline, which the padding of `s` takes. */
  lemma BadLineThen(ts: TokenStream, q: nat, k: nat, s: Statement, n: nat,
                    rest: seq<Statement>, errs: seq<ParseError>, complete: bool)
    requires BadLineAt(ts, q, k) && ParsePadded(ts, q + k + 1) == Some(Parsed(s, n))
    requires ParseFrom(ts, n) == ParseOutput(rest, errs, complete)
    ensures ParseFrom(ts, q) == ParseOutput([s] + rest, [SyntaxError(q)] + errs, complete)
  {
    BadLineRecovers(ts, q, k);
    ParseFromResume(ts, q, q + k, s, n, rest, errs, complete);
  }

  /** From a bad line on: one error at its first token, and the statements
      of the lines after it, if there are any. With none left, recovery
      finds nothing and the end of the input is not reached. */
  lemma BadLineSkip(ts: TokenStream, q: nat, k: nat, b: seq<Statement>)
    requires BadLineAt(ts, q, k) && ProgramAt(ts, q + k + 1, b)
    ensures ParseFrom(ts, q) == ParseOutput(b, [SyntaxError(q)], b != [])
  {
    if b == [] {
      BadLastLine(ts, q, k);
    } else {
      var e1 := q + k + 1 + StatementLen(b[0]);
      LinesStart(ts, e1, b[1..], |ts|);
      PaddedParse(ts, q + k + 1, b[0], e1);
      ProgramParse(ts, e1, b[1..]);
      BadLineThen(ts, q, k, b[0], e1, b[1..], [], true);
      ConsAppend(b, []);
      assert b + [] == b;
    }
  }

  /** Lines `a`, one bad line at `q`, then lines `b` to the end: the parser
      returns `a` followed by `b` with exactly one error, at the bad line.
      The end of the input is reached only when `b` is not empty. */
  lemma RecoversFromLine(ts: TokenStream, p: nat, a: seq<Statement>, q: nat, k: nat, b: seq<Statement>)
    requires LinesAt(ts, p, a, q) && BadLineAt(ts, q, k) && ProgramAt(ts, q + k + 1, b)
    ensures ParseFrom(ts, p) == ParseOutput(a + b, [SyntaxError(q)], b != [])
  {
    BadLineSkip(ts, q, k, b);
    LinesParse(ts, p, a, q, b, [SyntaxError(q)], b != []);
  }

  /** The same for a whole comment-free document: a bad line costs one
      error and nothing else, unless no statement follows it; then the
      document as a whole fails and has no statements at all. */
  lemma DocumentRecovers(tokens: TokenStream, a: seq<Statement>, q: nat, k: nat, b: seq<Statement>)
    requires forall i :: 0 <= i < |tokens| ==> tokens[i].value != Comment
    requires LinesAt(tokens, 0, a, q) && BadLineAt(tokens, q, k) && ProgramAt(tokens, q + k + 1, b)
    ensures ParseTokens(tokens) == ParserResult(tokens, if b != [] then a + b else [], [SyntaxError(q)])
  {
    FilterCommentsNone(tokens);
    RecoversFromLine(tokens, 0, a, q, k, b);
  }

  /** A document with a bad line between two global variables: `@1 = [12]`,
      `broken line` and `@bar = [32]`, one per line. */
  function BadLineDocument(): TokenStream {
    [ Spanned(GlobalName("@1"), Span(0, 2)), Spanned(Punctuation('='), Span(3, 4)),
      Spanned(Other("[12]"), Span(5, 9)), Spanned(Newline, Span(9, 10)),
      Spanned(Ident("broken"), Span(10, 16)), Spanned(Ident("line"), Span(17, 21)),
      Spanned(Newline, Span(21, 22)),
      Spanned(GlobalName("@bar"), Span(22, 26)), Spanned(Punctuation('='), Span(27, 28)),
      Spanned(Other("[32]"), Span(29, 33)), Spanned(Newline, Span(33, 34)) ]
  }

  lemma PairAppend<T>(x: T, y: T)
    ensures [x] + [y] == [x, y]
  {
  }

  /** The first line of the bad-line document is the variable `@1`. */
  lemma BadLineDocumentFirst()
    ensures LinesAt(BadLineDocument(), 0, [GlobalVar(Spanned("@1", Span(0, 2)), [BadLineDocument()[2]])], 4)
  {
    var ts := BadLineDocument();
    assert ts[2 .. 3] == [ts[2]];
    assert LinesAt(ts, 4, [], 4);
  }

  /** The second line of the bad-line document is a bad line. */
  lemma BadLineDocumentSecond()
    ensures BadLineAt(BadLineDocument(), 4, 2)
    ensures forall i :: 0 <= i < |BadLineDocument()| ==> BadLineDocument()[i].value != Comment
  {
  }

  /** The last line of the bad-line document is the variable `@bar`. */
  lemma BadLineDocumentLast()
    ensures ProgramAt(BadLineDocument(), 7, [GlobalVar(Spanned("@bar", Span(22, 26)), [BadLineDocument()[9]])])
  {
    var ts := BadLineDocument();
    assert ts[9 .. 10] == [ts[9]];
    assert LinesAt(ts, 11, [], 11);
  }

  /** The bad line: one error, at the line's first token, then the parser
      resumes at the next variable and returns both variables. */
  lemma RecoversFromBadLine()
    ensures ParseTokens(BadLineDocument()) == ParserResult(BadLineDocument(),
      [GlobalVar(Spanned("@1", Span(0, 2)), [BadLineDocument()[2]]),
       GlobalVar(Spanned("@bar", Span(22, 26)), [BadLineDocument()[9]])],
      [SyntaxError(4)])
  {
    BadLineDocumentFirst();
    BadLineDocumentSecond();
    BadLineDocumentLast();
    PairAppend(GlobalVar(Spanned("@1", Span(0, 2)), [BadLineDocument()[2]]),
               GlobalVar(Spanned("@bar", Span(22, 26)), [BadLineDocument()[9]]));
    DocumentRecovers(BadLineDocument(), [GlobalVar(Spanned("@1", Span(0, 2)), [BadLineDocument()[2]])], 4, 2,
                     [GlobalVar(Spanned("@bar", Span(22, 26)), [BadLineDocument()[9]])]);
  }

  /** The same document without its last line: `@1 = [12]`, then
      `broken line`. */
  function TrailingBadLineDocument(): TokenStream {
    BadLineDocument()[.. 7]
  }

  /** The lines of the shortened document: the variable, then the bad line. */
  lemma TrailingBadLineDocumentLines()
    ensures LinesAt(TrailingBadLineDocument(), 0, [GlobalVar(Spanned("@1", Span(0, 2)), [BadLineDocument()[2]])], 4)
    ensures BadLineAt(TrailingBadLineDocument(), 4, 2) && ProgramAt(TrailingBadLineDocument(), 7, [])
    ensures forall i :: 0 <= i < |TrailingBadLineDocument()| ==> TrailingBadLineDocument()[i].value != Comment
  {
    var ts := TrailingBadLineDocument();
    assert ts[2 .. 3] == [ts[2]];
    assert LinesAt(ts, 4, [], 4);
  }

  /** A bad last line: recovery finds no later statement, the parse as a
      whole fails, and the variable before the bad line is lost as well. */
  lemma TrailingBadLineLosesAll()
    ensures ParseTokens(TrailingBadLineDocument()) == ParserResult(TrailingBadLineDocument(), [], [SyntaxError(4)])
  {
    TrailingBadLineDocumentLines();
    DocumentRecovers(TrailingBadLineDocument(), [GlobalVar(Spanned("@1", Span(0, 2)), [BadLineDocument()[2]])], 4, 2, []);
  }
}
