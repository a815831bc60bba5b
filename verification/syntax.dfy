/**
 The statement tree produced by the parser and consumed by the index builder.
 Its shape is the one the index reads: a function definition carries the span
 of its `define` keyword, and an instruction carries the basic-block labels it
 references.
 */
module Syntax {
  import opened Tokens

  /** One argument `Type LocalName` of a function signature. */
  datatype FuncArg = FuncArg(typeName: Spanned<string>, name: Spanned<string>)

  /** `modifiers* Type GlobalName ( args )` */
  datatype FuncSignature = FuncSignature(
    modifiers: seq<Spanned<string>>,
    retType: Spanned<string>,
    name: Spanned<string>,
    args: seq<FuncArg>)

  /** An opaque instruction line: optional assignment target, the mnemonic,
      and the basic-block labels named among its operands. */
  datatype Instruction = Instruction(
    assignmentTarget: Option<Spanned<string>>,
    mnemonic: Spanned<string>,
    basicBlockRefs: seq<Spanned<string>>)

  /** A basic block; only the entry block of a body has no label. */
  datatype BasicBlock = BasicBlock(blockLabel: Option<Spanned<string>>, instructions: seq<Instruction>)

  /** The `{ ... }` part of a function definition. */
  datatype FuncBody = FuncBody(openingBracket: Span, closingBracket: Span, basicBlocks: seq<BasicBlock>)

  /** A top-level statement. `GlobalVar` and `DbgAnnotation` keep their
      definitions as unparsed token soup. `FuncDependencies` is a statement
      kind the index skips; its contents are not part of this model. */
  datatype Statement =
    | GlobalVar(name: Spanned<string>, def: seq<Spanned<Token>>)
    | FuncDecl(signature: FuncSignature, addr: Option<Spanned<string>>)
    | FuncDef(defineKw: Span, signature: FuncSignature, body: FuncBody)
    | FuncDependencies
    | DbgAnnotation(name: Spanned<string>, def: seq<Spanned<Token>>)
}
