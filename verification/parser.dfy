/**
 The statement grammar of the IR language, as a recursive-descent parser over
 a token stream (comments already removed).

 Every parsing function looks at the tokens from position `p` on and either
 fails (`None`, the combinator's backtracking failure: nothing is consumed)
 or returns the parsed value with the position just after it.
 */
module Parser {
  import opened Tokens
  import opened Syntax

  /** A successful parse: the value and the position just after it. */
  datatype Parsed<+T> = Parsed(value: T, next: nat)

  /** The classes of name-carrying tokens the grammar matches on. */
  datatype NameClass = GlobalClass | LocalClass | DebugClass | TypeClass | IdentClass | ModifierClass | HexClass

  /** The text of `t` when it is a token of class `c`. */
  function NameOf(t: Token, c: NameClass): Option<string> {
    var matches := match c
      case GlobalClass => t.GlobalName?
      case LocalClass => t.LocalName?
      case DebugClass => t.DebugRef?
      case TypeClass => t.Type?
      case IdentClass => t.Ident?
      case ModifierClass => t.FuncModifier?
      case HexClass => t.HexNum?;
    if matches then Some(t.name) else None
  }

  /** Whether the token at `p` exists and is of class `c`. */
  predicate IsClass(ts: TokenStream, p: nat, c: NameClass) {
    p < |ts| && NameOf(ts[p].value, c).Some?
  }

  /** Whether the token at `p` exists and is exactly `t`. */
  predicate IsTok(ts: TokenStream, p: nat, t: Token) {
    p < |ts| && ts[p].value == t
  }

  /** The token at `p` as a spanned name; only meaningful when `IsClass(ts, p, c)`. */
  function NameAt(ts: TokenStream, p: nat, c: NameClass): Spanned<string>
    requires IsClass(ts, p, c)
  {
    Spanned(NameOf(ts[p].value, c).value, ts[p].span)
  }

  /** Matches one token of class `c` at `p`. */
  function Expect(ts: TokenStream, p: nat, c: NameClass): (r: Option<Spanned<string>>)
    ensures r.Some? <==> IsClass(ts, p, c)
    ensures r.Some? ==> r.value == NameAt(ts, p, c)
  {
    if IsClass(ts, p, c) then Some(NameAt(ts, p, c)) else None
  }

  /** `q` is where the line that continues at `a` ends: no newline in
      `[a, q)`, and `q` is a newline or the end of the input. */
  ghost predicate LineEndsAt(ts: TokenStream, a: nat, q: nat) {
    && a <= q <= |ts|
    && (forall i :: a <= i < q ==> ts[i].value != Newline)
    && (q == |ts| || ts[q].value == Newline)
  }

  /** Token soup: the end of the run of non-newline tokens starting at `p`. */
  function SoupEnd(ts: TokenStream, p: nat): (q: nat)
    requires p <= |ts|
    ensures p <= q <= |ts|
    decreases |ts| - p
  {
    if p == |ts| || ts[p].value == Newline then p else SoupEnd(ts, p + 1)
  }

  /** The soup stops at the first newline: none is skipped over. */
  lemma {:induction false} SoupEndLine(ts: TokenStream, p: nat)
    requires p <= |ts|
    ensures LineEndsAt(ts, p, SoupEnd(ts, p))
    decreases |ts| - p
  {
    if p < |ts| && ts[p].value != Newline {
      SoupEndLine(ts, p + 1);
    }
  }

  /** The end-of-line parser: a newline, or the end of the input (consuming nothing). */
  function Eol(ts: TokenStream, p: nat): (r: Option<nat>)
    requires p <= |ts|
    ensures r.Some? <==> p == |ts| || ts[p].value == Newline
    ensures r.Some? ==> r.value == if p == |ts| then p else p + 1
  {
    if p == |ts| then Some(p) else if ts[p].value == Newline then Some(p + 1) else None
  }

  /** Skips a (possibly empty) run of newline tokens. */
  function SkipNewlines(ts: TokenStream, p: nat): (q: nat)
    requires p <= |ts|
    ensures p <= q <= |ts|
    decreases |ts| - p
  {
    if p < |ts| && ts[p].value == Newline then SkipNewlines(ts, p + 1) else p
  }

  /** Only newlines are skipped, and all of them. */
  lemma {:induction false} SkipNewlinesSkipsNewlines(ts: TokenStream, p: nat)
    requires p <= |ts|
    ensures forall i :: p <= i < SkipNewlines(ts, p) ==> ts[i].value == Newline
    ensures SkipNewlines(ts, p) == |ts| || ts[SkipNewlines(ts, p)].value != Newline
    decreases |ts| - p
  {
    if p < |ts| && ts[p].value == Newline {
      SkipNewlinesSkipsNewlines(ts, p + 1);
    }
  }

  /** A statement parsed from `p` ends with a newline or at the end of the input. */
  predicate EndsStatement(ts: TokenStream, p: nat, r: Option<Parsed<Statement>>) {
    r.Some? ==>
      && p < r.value.next <= |ts|
      && Announces(ts[p].value, r.value.value)
      && (r.value.next == |ts| || ts[r.value.next - 1].value == Newline)
  }

  /** `GlobalName '=' soup eol` */
  function ParseGlobalVar(ts: TokenStream, p: nat): (r: Option<Parsed<Statement>>)
    requires p <= |ts|
    ensures EndsStatement(ts, p, r)
    ensures r.Some? <==> IsClass(ts, p, GlobalClass) && IsTok(ts, p + 1, Punctuation('='))
    ensures r.Some? ==>
      && r.value.value.GlobalVar?
      && r.value.value.name == NameAt(ts, p, GlobalClass)
      && LineEndsAt(ts, p + 2, p + 2 + |r.value.value.def|)
      && r.value.value.def == ts[p + 2 .. p + 2 + |r.value.value.def|]
      && Eol(ts, p + 2 + |r.value.value.def|) == Some(r.value.next)
  {
    if IsClass(ts, p, GlobalClass) && IsTok(ts, p + 1, Punctuation('=')) then
      var q := SoupEnd(ts, p + 2);
      SoupEndLine(ts, p + 2);
      Some(Parsed(GlobalVar(NameAt(ts, p, GlobalClass), ts[p + 2 .. q]), Eol(ts, q).value))
    else
      None
  }

  /** `DebugRef soup eol` */
  function ParseDbgAnnotation(ts: TokenStream, p: nat): (r: Option<Parsed<Statement>>)
    requires p <= |ts|
    ensures EndsStatement(ts, p, r)
    ensures r.Some? <==> IsClass(ts, p, DebugClass)
    ensures r.Some? ==>
      && r.value.value.DbgAnnotation?
      && r.value.value.name == NameAt(ts, p, DebugClass)
      && LineEndsAt(ts, p + 1, p + 1 + |r.value.value.def|)
      && r.value.value.def == ts[p + 1 .. p + 1 + |r.value.value.def|]
      && Eol(ts, p + 1 + |r.value.value.def|) == Some(r.value.next)
  {
    if IsClass(ts, p, DebugClass) then
      var q := SoupEnd(ts, p + 1);
      SoupEndLine(ts, p + 1);
      Some(Parsed(DbgAnnotation(NameAt(ts, p, DebugClass), ts[p + 1 .. q]), Eol(ts, q).value))
    else
      None
  }

  /** `FuncModifier*`, as many as there are. */
  function ParseModifiers(ts: TokenStream, p: nat): (r: Parsed<seq<Spanned<string>>>)
    requires p <= |ts|
    ensures r.next == p + |r.value| <= |ts|
    decreases |ts| - p
  {
    if IsClass(ts, p, ModifierClass) then
      var rest := ParseModifiers(ts, p + 1);
      Parsed([NameAt(ts, p, ModifierClass)] + rest.value, rest.next)
    else
      Parsed([], p)
  }

  /** The modifiers are the maximal run of modifier tokens at `p`. */
  lemma {:induction false} ModifiersRun(ts: TokenStream, p: nat)
    requires p <= |ts|
    ensures var r := ParseModifiers(ts, p);
      && (forall i :: p <= i < r.next ==> IsClass(ts, i, ModifierClass) && r.value[i - p] == NameAt(ts, i, ModifierClass))
      && !IsClass(ts, r.next, ModifierClass)
    decreases |ts| - p
  {
    if IsClass(ts, p, ModifierClass) {
      ModifiersRun(ts, p + 1);
    }
  }

  /** `Type LocalName` */
  function ParseArg(ts: TokenStream, p: nat): (r: Option<Parsed<FuncArg>>)
    ensures r.Some? <==> IsClass(ts, p, TypeClass) && IsClass(ts, p + 1, LocalClass)
    ensures r.Some? ==>
      && r.value.next == p + 2
      && r.value.value == FuncArg(NameAt(ts, p, TypeClass), NameAt(ts, p + 1, LocalClass))
  {
    if IsClass(ts, p, TypeClass) && IsClass(ts, p + 1, LocalClass) then
      Some(Parsed(FuncArg(NameAt(ts, p, TypeClass), NameAt(ts, p + 1, LocalClass)), p + 2))
    else
      None
  }

  /** `(',' Arg)*`: stops before a comma that is not followed by an argument. */
  function ParseMoreArgs(ts: TokenStream, p: nat): (r: Parsed<seq<FuncArg>>)
    requires p <= |ts|
    ensures p + 3 * |r.value| == r.next <= |ts|
    decreases |ts| - p
  {
    if IsTok(ts, p, Punctuation(',')) then
      match ParseArg(ts, p + 1)
      case None => Parsed([], p)
      case Some(a) =>
        var rest := ParseMoreArgs(ts, a.next);
        Parsed([a.value] + rest.value, rest.next)
    else
      Parsed([], p)
  }

  /** `(Arg (',' Arg)*)?`: arguments separated by commas, possibly none. */
  function ParseArgs(ts: TokenStream, p: nat): (r: Parsed<seq<FuncArg>>)
    requires p <= |ts|
    ensures p <= r.next <= |ts|
    ensures r.value == [] <==> r.next == p
  {
    match ParseArg(ts, p)
    case None => Parsed([], p)
    case Some(a) =>
      var rest := ParseMoreArgs(ts, a.next);
      Parsed([a.value] + rest.value, rest.next)
  }

  /** `FuncModifier* Type GlobalName '(' args ')'` */
  function ParseSignature(ts: TokenStream, p: nat): (r: Option<Parsed<FuncSignature>>)
    requires p <= |ts|
    ensures r.Some? ==> p < r.value.next <= |ts|
  {
    var mods := ParseModifiers(ts, p);
    var m := mods.next;
    if IsClass(ts, m, TypeClass) && IsClass(ts, m + 1, GlobalClass) && IsTok(ts, m + 2, Punctuation('(')) then
      var args := ParseArgs(ts, m + 3);
      if IsTok(ts, args.next, Punctuation(')')) then
        Some(Parsed(FuncSignature(mods.value, NameAt(ts, m, TypeClass), NameAt(ts, m + 1, GlobalClass), args.value),
                    args.next + 1))
      else
        None
    else
      None
  }

  /** What a parsed signature is made of: the modifier run, then the
      return type, the name and `(`, and a closing `)` as its last token. */
  lemma SignatureShape(ts: TokenStream, p: nat)
    requires p <= |ts| && ParseSignature(ts, p).Some?
    ensures var r := ParseSignature(ts, p).value;
      var sig := r.value;
      var m := p + |sig.modifiers|;
      && m + 3 < r.next <= |ts|
      && ParseModifiers(ts, p) == Parsed(sig.modifiers, m)
      && IsClass(ts, m, TypeClass) && sig.retType == NameAt(ts, m, TypeClass)
      && IsClass(ts, m + 1, GlobalClass) && sig.name == NameAt(ts, m + 1, GlobalClass)
      && IsTok(ts, m + 2, Punctuation('('))
      && IsTok(ts, r.next - 1, Punctuation(')'))
      && sig.args == ParseArgs(ts, m + 3).value
      && r.next == ParseArgs(ts, m + 3).next + 1
      && (sig.args == [] <==> r.next == m + 4)
  {
  }

  /** `'=' HexNum`, optional. */
  function ParseAddr(ts: TokenStream, p: nat): (r: Parsed<Option<Spanned<string>>>)
    requires p <= |ts|
    ensures r.value.Some? <==> IsTok(ts, p, Punctuation('=')) && IsClass(ts, p + 1, HexClass)
    ensures r.value.Some? ==> r.value.value == NameAt(ts, p + 1, HexClass) && r.next == p + 2
    ensures r.value.None? ==> r.next == p
  {
    if IsTok(ts, p, Punctuation('=')) && IsClass(ts, p + 1, HexClass) then
      Parsed(Some(NameAt(ts, p + 1, HexClass)), p + 2)
    else
      Parsed(None, p)
  }

  /** `'declare' signature ('=' HexNum)? eol` */
  function ParseDecl(ts: TokenStream, p: nat): (r: Option<Parsed<Statement>>)
    requires p <= |ts|
    ensures EndsStatement(ts, p, r)
    ensures r.Some? ==> IsTok(ts, p, Declare) && r.value.value.FuncDecl? && p < r.value.next <= |ts|
  {
    if IsTok(ts, p, Declare) then
      match ParseSignature(ts, p + 1)
      case None => None
      case Some(sig) =>
        var addr := ParseAddr(ts, sig.next);
        match Eol(ts, addr.next)
        case None => None
        case Some(e) => Some(Parsed(FuncDecl(sig.value, addr.value), e))
    else
      None
  }

  /** The mnemonic's position: after `Type LocalName '='` when that prefix is present. */
  function MnemonicPos(ts: TokenStream, p: nat): nat {
    if IsClass(ts, p, TypeClass) && IsClass(ts, p + 1, LocalClass) && IsTok(ts, p + 2, Punctuation('=')) then p + 3 else p
  }

  /** `(Type LocalName '=')? Ident`, then a look-ahead for a token that is
      not `':'`, then the rest of the line. The look-ahead is what keeps a
      label line `name:` from being read as an instruction. */
  function ParseInstruction(ts: TokenStream, p: nat): (r: Option<Parsed<Instruction>>)
    requires p <= |ts|
    ensures r.Some? ==> p < r.value.next <= |ts|
  {
    var m := MnemonicPos(ts, p);
    var target := if m == p + 3 then Some(NameAt(ts, p + 1, LocalClass)) else None;
    if IsClass(ts, m, IdentClass) && m + 1 < |ts| && ts[m + 1].value != Punctuation(':') then
      Some(Parsed(Instruction(target, NameAt(ts, m, IdentClass), []), SoupEnd(ts, m + 1)))
    else
      None
  }

  /** When an instruction parses: a mnemonic not followed by `':'`, an
      assignment target exactly when the `Type LocalName '='` prefix is
      there, no label references, and the rest of the line after the
      mnemonic taken as well. */
  lemma InstructionShape(ts: TokenStream, p: nat)
    requires p <= |ts|
    ensures var r := ParseInstruction(ts, p);
      var m := MnemonicPos(ts, p);
      && (r.Some? <==> IsClass(ts, m, IdentClass) && m + 1 < |ts| && ts[m + 1].value != Punctuation(':'))
      && (r.Some? ==>
          && r.value.value.mnemonic == NameAt(ts, m, IdentClass)
          && (r.value.value.assignmentTarget.Some? <==> m == p + 3)
          && (m == p + 3 ==> r.value.value.assignmentTarget.value == NameAt(ts, p + 1, LocalClass))
          && r.value.value.basicBlockRefs == []
          && LineEndsAt(ts, m + 1, r.value.next))
  {
    var m := MnemonicPos(ts, p);
    if IsClass(ts, m, IdentClass) && m + 1 < |ts| {
      SoupEndLine(ts, m + 1);
    }
  }

  /** A label line `name:` is never an instruction. */
  lemma LabelIsNoInstruction(ts: TokenStream, p: nat)
    requires p <= |ts| && IsClass(ts, p, IdentClass) && IsTok(ts, p + 1, Punctuation(':'))
    ensures ParseInstruction(ts, p).None?
  {
    assert MnemonicPos(ts, p) == p;
  }

  /** `(Newline* Instruction Newline*)*` */
  function ParseInstructions(ts: TokenStream, p: nat): (r: Parsed<seq<Instruction>>)
    requires p <= |ts|
    ensures p <= r.next <= |ts|
    decreases |ts| - p
  {
    var q := SkipNewlines(ts, p);
    match ParseInstruction(ts, q)
    case None => Parsed([], p)
    case Some(i) =>
      var rest := ParseInstructions(ts, SkipNewlines(ts, i.next));
      Parsed([i.value] + rest.value, rest.next)
  }

  /** The instruction list consumes nothing exactly when it is empty. */
  lemma InstructionsEmpty(ts: TokenStream, p: nat)
    requires p <= |ts|
    ensures ParseInstructions(ts, p).value == [] <==> ParseInstructions(ts, p).next == p
  {
    var q := SkipNewlines(ts, p);
    if ParseInstruction(ts, q).Some? {
      assert ParseInstructions(ts, p).next >= ParseInstruction(ts, q).value.next > q >= p;
    }
  }

  /** `Ident ':' Newline+ instructions` */
  function ParseBlock(ts: TokenStream, p: nat): (r: Option<Parsed<BasicBlock>>)
    requires p <= |ts|
    ensures r.Some? ==> p < r.value.next <= |ts|
  {
    if IsClass(ts, p, IdentClass) && IsTok(ts, p + 1, Punctuation(':')) && IsTok(ts, p + 2, Newline) then
      var body := ParseInstructions(ts, SkipNewlines(ts, p + 2));
      Some(Parsed(BasicBlock(Some(NameAt(ts, p, IdentClass)), body.value), body.next))
    else
      None
  }

  /** A parsed block carries the label its line starts with. */
  lemma BlockShape(ts: TokenStream, p: nat)
    requires p <= |ts| && ParseBlock(ts, p).Some?
    ensures var r := ParseBlock(ts, p).value;
      && IsClass(ts, p, IdentClass) && IsTok(ts, p + 1, Punctuation(':')) && IsTok(ts, p + 2, Newline)
      && r.value.blockLabel == Some(NameAt(ts, p, IdentClass))
      && r.value.instructions == ParseInstructions(ts, SkipNewlines(ts, p + 2)).value
      && r.next == ParseInstructions(ts, SkipNewlines(ts, p + 2)).next
      && p + 3 <= r.next
  {
  }

  /** `Block*` */
  function ParseBlocks(ts: TokenStream, p: nat): (r: Parsed<seq<BasicBlock>>)
    requires p <= |ts|
    ensures p <= r.next <= |ts|
    decreases |ts| - p
  {
    match ParseBlock(ts, p)
    case None => Parsed([], p)
    case Some(b) =>
      var rest := ParseBlocks(ts, b.next);
      Parsed([b.value] + rest.value, rest.next)
  }

  /** Every block of the list is labelled. */
  lemma {:induction false} BlocksLabelled(ts: TokenStream, p: nat)
    requires p <= |ts|
    ensures forall i :: 0 <= i < |ParseBlocks(ts, p).value| ==> ParseBlocks(ts, p).value[i].blockLabel.Some?
    decreases |ts| - p
  {
    var b := ParseBlock(ts, p);
    if b.Some? {
      BlocksLabelled(ts, b.value.next);
      var rest := ParseBlocks(ts, b.value.next).value;
      assert ParseBlocks(ts, p).value == [b.value.value] + rest;
      forall i | 0 <= i < |ParseBlocks(ts, p).value|
        ensures ParseBlocks(ts, p).value[i].blockLabel.Some?
      {
        if i > 0 {
          assert ParseBlocks(ts, p).value[i] == rest[i - 1];
        }
      }
    }
  }

  /** `'{' Newline+ instructions Block* '}'`: the instructions before the
      first label form the unlabelled entry block. */
  function ParseBody(ts: TokenStream, p: nat): (r: Option<Parsed<FuncBody>>)
    requires p <= |ts|
    ensures r.Some? ==> p < r.value.next <= |ts|
  {
    if IsTok(ts, p, Punctuation('{')) && IsTok(ts, p + 1, Newline) then
      var entry := ParseInstructions(ts, SkipNewlines(ts, p + 1));
      var blocks := ParseBlocks(ts, entry.next);
      if IsTok(ts, blocks.next, Punctuation('}')) then
        Some(Parsed(FuncBody(ts[p].span, ts[blocks.next].span, [BasicBlock(None, entry.value)] + blocks.value),
                    blocks.next + 1))
      else
        None
    else
      None
  }

  /** A parsed body spans from its `{` to its `}`, and its first block, and
      only that one, is the unlabelled entry block. */
  lemma BodyShape(ts: TokenStream, p: nat)
    requires p <= |ts| && ParseBody(ts, p).Some?
    ensures var r := ParseBody(ts, p).value;
      var body := r.value;
      && p + 2 < r.next <= |ts|
      && IsTok(ts, p, Punctuation('{')) && body.openingBracket == ts[p].span
      && IsTok(ts, r.next - 1, Punctuation('}')) && body.closingBracket == ts[r.next - 1].span
      && |body.basicBlocks| >= 1
      && body.basicBlocks[0].blockLabel.None?
      && body.basicBlocks[0].instructions == ParseInstructions(ts, SkipNewlines(ts, p + 1)).value
      && forall i :: 1 <= i < |body.basicBlocks| ==> body.basicBlocks[i].blockLabel.Some?
  {
    var entry := ParseInstructions(ts, SkipNewlines(ts, p + 1));
    var blocks := ParseBlocks(ts, entry.next);
    BlocksLabelled(ts, entry.next);
    var bbs := ParseBody(ts, p).value.value.basicBlocks;
    assert bbs == [BasicBlock(None, entry.value)] + blocks.value;
    forall i | 1 <= i < |bbs| ensures bbs[i].blockLabel.Some? {
      assert bbs[i] == blocks.value[i - 1];
    }
  }

  /** A function body followed by the end of its line. */
  function ParseBodyLine(ts: TokenStream, p: nat): (r: Option<Parsed<FuncBody>>)
    requires p <= |ts|
    ensures r.Some? ==> p < r.value.next <= |ts| && (r.value.next == |ts| || ts[r.value.next - 1].value == Newline)
  {
    match ParseBody(ts, p)
    case None => None
    case Some(body) =>
      match Eol(ts, body.next)
      case None => None
      case Some(e) => Some(Parsed(body.value, e))
  }

  /** `'define' signature body eol` */
  function ParseDef(ts: TokenStream, p: nat): (r: Option<Parsed<Statement>>)
    requires p <= |ts|
    ensures EndsStatement(ts, p, r)
    ensures r.Some? ==> IsTok(ts, p, Define) && r.value.value.FuncDef? && r.value.value.defineKw == ts[p].span
  {
    if !IsTok(ts, p, Define) then None
    else
      var sig := ParseSignature(ts, p + 1);
      if sig.None? then None
      else
        var body := ParseBodyLine(ts, sig.value.next);
        if body.None? then None
        else Some(Parsed(FuncDef(ts[p].span, sig.value.value, body.value.value), body.value.next))
  }


  /** The statement kind a leading token announces. */
  predicate Announces(t: Token, s: Statement) {
    match s
    case GlobalVar(_, _) => t.GlobalName?
    case FuncDecl(_, _) => t == Declare
    case FuncDef(_, _, _) => t == Define
    case FuncDependencies => false
    case DbgAnnotation(_, _) => t.DebugRef?
  }

  /** Ordered alternation of the four statement forms; the first that
      succeeds wins. A statement ends with a newline or at the end of input. */
  function ParseStatement(ts: TokenStream, p: nat): (r: Option<Parsed<Statement>>)
    requires p <= |ts|
    ensures EndsStatement(ts, p, r)
  {
    match ParseGlobalVar(ts, p)
    case Some(s) => Some(s)
    case None =>
      match ParseDecl(ts, p)
      case Some(s) => Some(s)
      case None =>
        match ParseDef(ts, p)
        case Some(s) => Some(s)
        case None => ParseDbgAnnotation(ts, p)
  }

  /** A statement padded by newlines on both sides: the blank lines after
      it are taken too, so the next statement starts at a token that is not
      a newline. */
  function ParsePadded(ts: TokenStream, p: nat): (r: Option<Parsed<Statement>>)
    requires p <= |ts|
    ensures r.Some? ==> p < r.value.next <= |ts|
    ensures r.Some? ==> r.value.next == |ts| || ts[r.value.next].value != Newline
  {
    match ParseStatement(ts, SkipNewlines(ts, p))
    case None => None
    case Some(s) =>
      SkipNewlinesSkipsNewlines(ts, s.next);
      Some(Parsed(s.value, SkipNewlines(ts, s.next)))
  }

  /** Error recovery: the first position from `q` on (before the end of the
      input) at which a padded statement parses. */
  function Recover(ts: TokenStream, q: nat): (r: Option<nat>)
    requires q <= |ts|
    ensures r.Some? ==>
      && q <= r.value < |ts|
      && ParsePadded(ts, r.value).Some?
      && forall i :: q <= i < r.value ==> ParsePadded(ts, i).None?
    ensures r.None? ==> forall i :: q <= i < |ts| ==> ParsePadded(ts, i).None?
    decreases |ts| - q
  {
    if q == |ts| then None
    else if ParsePadded(ts, q).Some? then Some(q)
    else Recover(ts, q + 1)
  }

  /** A syntax error: the statement attempted at token position `at` failed. */
  datatype ParseError = SyntaxError(at: nat)

  /** The statements the repetition collected, the errors it recorded, and
      whether it reached the end of the input. When recovery finds no later
      statement the repetition stops short of the end, and the end-of-input
      parser that follows it fails. */
  datatype ParseOutput = ParseOutput(stmts: seq<Statement>, errors: seq<ParseError>, complete: bool)

  /** The statement list from position `p`: statements in order; where one
      fails, skip tokens one by one until one parses again, and record one error. */
  function ParseFrom(ts: TokenStream, p: nat): (r: ParseOutput)
    requires p <= |ts|
    ensures forall e :: e in r.errors ==> p <= e.at < |ts|
    ensures |r.stmts| + |r.errors| <= |ts| - p
    ensures !r.complete ==> r.errors != []
    decreases |ts| - p
  {
    if p == |ts| then ParseOutput([], [], true)
    else
      match ParsePadded(ts, p)
      case Some(s) =>
        var rest := ParseFrom(ts, s.next);
        ParseOutput([s.value] + rest.stmts, rest.errors, rest.complete)
      case None =>
        match Recover(ts, p + 1)
        case None => ParseOutput([], [SyntaxError(p)], false)
        case Some(q) =>
          var s := ParsePadded(ts, q).value;
          var rest := ParseFrom(ts, s.next);
          ParseOutput([s.value] + rest.stmts, [SyntaxError(p)] + rest.errors, rest.complete)
  }

  /** Each error is reported at a position where no padded statement parses. */
  lemma {:induction false} ErrorsAtFailures(ts: TokenStream, p: nat)
    requires p <= |ts|
    ensures forall e :: e in ParseFrom(ts, p).errors ==> ParsePadded(ts, e.at).None?
    decreases |ts| - p
  {
    if p < |ts| {
      match ParsePadded(ts, p)
      case Some(s) =>
        ErrorsAtFailures(ts, s.next);
      case None =>
        match Recover(ts, p + 1)
        case None =>
        case Some(q) =>
          ErrorsAtFailures(ts, ParsePadded(ts, q).value.next);
    }
  }

  /** The token stream with every comment token removed, order kept. */
  function FilterComments(ts: TokenStream): (r: TokenStream)
    ensures |r| <= |ts|
    ensures forall t :: t in r <==> t in ts && t.value != Comment
  {
    if ts == [] then []
    else if ts[0].value == Comment then FilterComments(ts[1..])
    else [ts[0]] + FilterComments(ts[1..])
  }

  /** What parsing a document yields: the full token stream (comments
      included, as the index reads it), the statements and the errors. */
  datatype ParserResult = ParserResult(tokens: TokenStream, stmts: seq<Statement>, errors: seq<ParseError>)

  /** Parses a lexed document: comments are dropped before the grammar runs.
      When the statement list does not reach the end of the input the parse
      as a whole fails, and the document gets no statements at all, only the
      errors. */
  function ParseTokens(tokens: TokenStream): (r: ParserResult)
    ensures r.tokens == tokens
    ensures |r.stmts| + |r.errors| <= |tokens|
    ensures !ParseFrom(FilterComments(tokens), 0).complete ==> r.stmts == [] && r.errors != []
  {
    var out := ParseFrom(FilterComments(tokens), 0);
    ParserResult(tokens, if out.complete then out.stmts else [], out.errors)
  }

  /** Filtering distributes over concatenation, so it keeps token order. */
  lemma {:induction false} FilterCommentsAppend(a: TokenStream, b: TokenStream)
    ensures FilterComments(a + b) == FilterComments(a) + FilterComments(b)
  {
    if a == [] {
      assert a + b == b;
    } else {
      assert (a + b)[0] == a[0];
      assert (a + b)[1..] == a[1..] + b;
      FilterCommentsAppend(a[1..], b);
    }
  }
}
