/**
 The lexer's output, as the parser and the index builder consume it.
 The lexer itself is not part of this model: a token stream is an input.
 */
module Tokens {

  /** The usual optional value. */
  datatype Option<+T> = None | Some(value: T)

  /** A half-open byte range `[start, end)` into the source text. */
  datatype Span = Span(start: nat, end: nat) {
    /** Whether the byte offset `pos` lies inside the range. */
    predicate Contains(pos: nat) {
      start <= pos < end
    }
  }

  /** A value paired with the span of the text it came from. */
  datatype Spanned<+T> = Spanned(value: T, span: Span)

  /** Token kinds of the IR language. `Other` stands for every lexeme the
      grammar never looks into (string literals, brackets inside token soup, ...). */
  datatype Token =
    | GlobalName(name: string)
    | LocalName(name: string)
    | DebugRef(name: string)
    | Type(name: string)
    | Ident(name: string)
    | FuncModifier(name: string)
    | HexNum(name: string)
    | Punctuation(ch: char)
    | Newline
    | Comment
    | Declare
    | Define
    | Other(text: string)

  type TokenStream = seq<Spanned<Token>>
}
