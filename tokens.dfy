/** Stand-in for the token types the scanner produces and the compiler's local
    table stores; only the variants the modelled code uses. */
module Tokens {

  datatype TokenType =
    | LeftParen | RightParen | LeftBrace | RightBrace
    | Comma | Dot | Minus | Plus | Semicolon | Slash | Star
    | Bang | BangEqual | Equal | EqualEqual
    | Greater | GreaterEqual | Less | LessEqual
    | StringLiteral(text: string)
    | Identifier(name: string)
    | Error(message: string)

  /** A token with its 1-based line and column. */
  datatype Token = Token(tokenType: TokenType, line: nat, column: nat)
}
